/**
 The documented frame layout, printed: a checksum comment, an id, an event name, data lines and a
 blank line, each ended by LF or CRLF. Printing and parsing are inverse, and a frame whose checksum
 does not match stops the parse after the frames before it.
 */
module SseLayout {
  import opened Basics
  import opened SseParser

  const CRC_LINE: Bytes := [58, 32, 99, 114, 99, 61]
  const ID_LINE: Bytes := [105, 100, 58, 32]
  const EVENT_LINE: Bytes := [101, 118, 101, 110, 116, 58, 32]
  const DATA_LINE: Bytes := [100, 97, 116, 97, 58, 32]

  datatype Line = Line(text: Bytes, crlf: bool)

  /** What the bridge writes: a message, or a comment that keeps the connection open. */
  datatype Wire = Message(id: Bytes, kind: Bytes, data: seq<Bytes>, crc: Bytes) | Heartbeat(note: Bytes)

  function DataLines(data: seq<Bytes>): seq<Bytes> {
    if data == [] then [] else [DATA_LINE + data[0]] + DataLines(data[1..])
  }

  function WireLines(w: Wire): seq<Bytes> {
    match w
    case Message(id, kind, data, crc) => [CRC_LINE + crc, ID_LINE + id, EVENT_LINE + kind] + DataLines(data) + [[]]
    case Heartbeat(note) => [[COLON] + note, []]
  }

  function AllLines(ws: seq<Wire>): seq<Bytes> {
    if ws == [] then [] else WireLines(ws[0]) + AllLines(ws[1..])
  }

  function Ending(crlf: bool): Bytes { if crlf then [CR, LF] else [LF] }

  function Text(lines: seq<Line>): Bytes {
    if lines == [] then [] else lines[0].text + Ending(lines[0].crlf) + Text(lines[1..])
  }

  /** The texts of `lines` without their endings. */
  function Texts(lines: seq<Line>): seq<Bytes> {
    if lines == [] then [] else [lines[0].text] + Texts(lines[1..])
  }

  /** A text that survives as one line: UTF-8, no line feed, no carriage return at its end, within the limit. */
  predicate LineText(s: Bytes) {
    Utf8(s) && LF !in s && (s != [] ==> s[|s| - 1] != CR) && |s| + 1 <= MAX_SSE_EVENT_BYTES
  }

  /** A message that fits the layout, whatever its checksum says. */
  predicate WellFormed(w: Wire) {
    && w.Message?
    && ChecksumText(w.crc)
    && LineText(ID_LINE + w.id) && 0 !in w.id
    && LineText(EVENT_LINE + w.kind)
    && (forall i :: 0 <= i < |w.data| ==> LineText(DATA_LINE + w.data[i]))
    && |Join(w.data)| <= MAX_SSE_EVENT_BYTES
    && LStrip(Join(w.data)) != []
  }

  predicate Printable(c: Codec, w: Wire) {
    if w.Heartbeat? then LineText([COLON] + w.note) && ChecksumOf([COLON] + w.note) == None
    else
      && WellFormed(w)
      && c.crc(w.kind, Join(w.data)) == w.crc
      && c.decode(Join(w.data)).Some?
      && c.decode(Join(w.data)).value.kind == Some(w.kind)
      && c.admits(w.id, c.decode(Join(w.data)).value)
  }

  predicate AllPrintable(c: Codec, ws: seq<Wire>) { forall i :: 0 <= i < |ws| ==> Printable(c, ws[i]) }

  /** The event that `w` carries. */
  function Carried(c: Codec, w: Wire): Option<Event> {
    if w.Message? && c.decode(Join(w.data)).Some? then Some(Event(w.id, c.decode(Join(w.data)).value)) else None
  }

  function Listed(event: Option<Event>): seq<Event> { if event.Some? then [event.value] else [] }

  /** The events that the messages among `ws` carry, in order. */
  function EventsOf(c: Codec, ws: seq<Wire>): seq<Event> {
    if ws == [] then [] else Listed(Carried(c, ws[0])) + EventsOf(c, ws[1..])
  }

  /** A line reader, and what follows the lines. */
  type Reader = (Frame, Bytes) -> LineResult
  type Ender = Frame -> Outcome

  function LineReader(c: Codec): Reader { (f: Frame, s: Bytes) => StepLine(c, f, s) }

  function RestOf(c: Codec, rest: Bytes): Ender { (f: Frame) => Run(c, f, rest) }

  /** Reads whole lines, given by their texts, then `last`. */
  function RunTexts(read: Reader, f: Frame, texts: seq<Bytes>, last: Ender): Outcome
    decreases |texts|
  {
    if texts == [] then last(f)
    else match read(f, texts[0])
      case Fail(e) => Outcome([], Failed(e))
      case Next(g) => RunTexts(read, g, texts[1..], last)
      case Emit(e) => var o := RunTexts(read, FRESH_FRAME, texts[1..], last); Outcome([e] + o.events, o.end)
  }

  function After(events: seq<Event>, o: Outcome): Outcome { Outcome(events + o.events, o.end) }

  lemma ReadNext(read: Reader, f: Frame, text: Bytes, more: seq<Bytes>, last: Ender)
    requires read(f, text).Next?
    ensures RunTexts(read, f, [text] + more, last) == RunTexts(read, read(f, text).frame, more, last)
  {
    assert ([text] + more)[1..] == more;
  }

  lemma StepLineEnding(c: Codec, f: Frame, s: Bytes)
    requires LineText(s)
    ensures StepLine(c, f, s + [CR]) == StepLine(c, f, s)
  {
    Utf8Concat(s, [CR]);
    assert (s + [CR])[..|s|] == s;
    assert StripCr(s + [CR]) == StripCr(s) == s;
  }

  lemma RunLine(c: Codec, f: Frame, line: Line, rest: Bytes)
    requires LineText(line.text)
    ensures Run(c, f, line.text + Ending(line.crlf) + rest) == Continue(c, StepLine(c, f, line.text), rest)
  {
    var raw := if line.crlf then line.text + [CR] else line.text;
    var b := line.text + Ending(line.crlf) + rest;
    assert b == raw + [LF] + rest;
    FindIsFirst(b, LF, |raw|);
    assert b[..|raw|] == raw;
    assert b[|raw| + 1..] == rest;
    StepLineEnding(c, f, line.text);
  }

  lemma {:induction false} RunLines(c: Codec, f: Frame, lines: seq<Line>, rest: Bytes)
    requires forall i :: 0 <= i < |lines| ==> LineText(lines[i].text)
    ensures Run(c, f, Text(lines) + rest) == RunTexts(LineReader(c), f, Texts(lines), RestOf(c, rest))
    decreases |lines|
  {
    if lines == [] {
      assert Text(lines) + rest == rest;
    } else {
      var more := Text(lines[1..]) + rest;
      assert Text(lines) + rest == lines[0].text + Ending(lines[0].crlf) + more;
      RunLine(c, f, lines[0], more);
      assert Texts(lines)[1..] == Texts(lines[1..]);
      var r := StepLine(c, f, lines[0].text);
      if !r.Fail? {
        RunLines(c, if r.Next? then r.frame else FRESH_FRAME, lines[1..], rest);
      }
    }
  }

  // Reading one message ------------------------------------------------------------------------

  lemma FieldLine(name: Bytes, value: Bytes)
    requires COLON !in name && name != []
    requires value != [] ==> value[|value| - 1] != CR
    ensures var line := name + [COLON, SPACE] + value;
            && FieldName(line) == name && FieldValue(line) == value
            && line != [] && line[0] != COLON && StripCr(line) == line
  {
    var line := name + [COLON, SPACE] + value;
    FindIsFirst(line, COLON, |name|);
    assert line[..|name|] == name;
    assert line[|name| + 2..] == value;
    assert line[|line| - 1] != CR;
  }

  lemma StepId(c: Codec, f: Frame, id: Bytes)
    requires LineText(ID_LINE + id) && 0 !in id
    ensures StepLine(c, f, ID_LINE + id) == Next(f.(id := id))
  {
    LastByte(ID_LINE, id);
    FieldLine(FIELD_ID, id);
    assert FIELD_ID + [COLON, SPACE] + id == ID_LINE + id;
  }

  lemma StepEvent(c: Codec, f: Frame, kind: Bytes)
    requires LineText(EVENT_LINE + kind)
    ensures StepLine(c, f, EVENT_LINE + kind) == Next(f.(kind := kind))
  {
    LastByte(EVENT_LINE, kind);
    FieldLine(FIELD_EVENT, kind);
    assert FIELD_EVENT + [COLON, SPACE] + kind == EVENT_LINE + kind;
  }

  lemma StepData(c: Codec, f: Frame, value: Bytes)
    requires LineText(DATA_LINE + value) && |Join(f.lines + [value])| <= MAX_SSE_EVENT_BYTES
    ensures StepLine(c, f, DATA_LINE + value) == Next(f.(lines := f.lines + [value]))
  {
    LastByte(DATA_LINE, value);
    FieldLine(FIELD_DATA, value);
    assert FIELD_DATA + [COLON, SPACE] + value == DATA_LINE + value;
  }

  lemma LastByte(prefix: Bytes, value: Bytes)
    requires LineText(prefix + value)
    ensures value != [] ==> value[|value| - 1] != CR
  {
    if value != [] {
      assert (prefix + value)[|prefix + value| - 1] == value[|value| - 1];
    }
  }

  lemma {:induction false} AsciiUtf8(s: Bytes)
    requires forall i :: 0 <= i < |s| ==> s[i] < 0x80
    ensures Utf8(s)
  {
    if s != [] {
      AsciiUtf8(s[1..]);
    }
  }

  lemma StepChecksum(c: Codec, f: Frame, crc: Bytes)
    requires ChecksumText(crc)
    ensures LineText(CRC_LINE + crc)
    ensures StepLine(c, f, CRC_LINE + crc) == Next(f.(crc := Some(crc)))
  {
    var line := CRC_LINE + crc;
    AsciiUtf8(line);
    ChecksumComment(crc);
    assert line[|line| - 1] == crc[|crc| - 1];
    assert StripCr(line) == line;
  }

  lemma ChecksumComment(crc: Bytes)
    ensures ChecksumOf(CRC_LINE + crc) == Some(crc)
  {
    var line := CRC_LINE + crc;
    assert line[1..][1..] == CRC_MARK + crc;
    assert SpaceWidth(line[1..]) == 1 && SpaceWidth(CRC_MARK + crc) == 0;
    assert LStrip(line[1..]) == CRC_MARK + crc;
    assert (CRC_MARK + crc)[4..] == crc;
  }

  lemma JoinMonotone(lines: seq<Bytes>, n: nat)
    requires n <= |lines|
    ensures |Join(lines[..n])| <= |Join(lines)|
    decreases |lines| - n
  {
    if n == |lines| {
      assert lines[..n] == lines;
    } else {
      JoinMonotone(lines, n + 1);
      assert lines[..n + 1] == lines[..n] + [lines[n]];
      JoinLength(lines[..n], lines[n]);
    }
  }

  /** A reader that takes the data values one by one. */
  ghost predicate TakesData(read: Reader, data: seq<Bytes>) {
    forall f: Frame, i :: 0 <= i < |data| && f.lines == data[..i] ==>
      read(f, DATA_LINE + data[i]) == Next(f.(lines := data[..i + 1]))
  }

  /** The data lines from `n` on complete the data of the frame. */
  lemma {:induction false} ReadData(read: Reader, f: Frame, data: seq<Bytes>, n: nat, more: seq<Bytes>, last: Ender)
    requires n <= |data| && f.lines == data[..n] && TakesData(read, data)
    ensures RunTexts(read, f, DataLines(data[n..]) + more, last) == RunTexts(read, f.(lines := data), more, last)
    decreases |data| - n
  {
    if n == |data| {
      assert data[..n] == data;
      assert DataLines(data[n..]) + more == more;
    } else {
      var g := f.(lines := data[..n + 1]);
      var tail := DataLines(data[n + 1..]) + more;
      assert data[n..][1..] == data[n + 1..];
      assert DataLines(data[n..]) + more == [DATA_LINE + data[n]] + tail;
      ReadNext(read, f, DATA_LINE + data[n], tail, last);
      ReadData(read, g, data, n + 1, more, last);
    }
  }

  /** What a reader must do with the lines of a message before the blank one. */
  ghost predicate TakesMessage(read: Reader, w: Wire)
    requires w.Message?
  {
    && (forall f: Frame :: read(f, CRC_LINE + w.crc) == Next(f.(crc := Some(w.crc))))
    && (forall f: Frame :: read(f, ID_LINE + w.id) == Next(f.(id := w.id)))
    && (forall f: Frame :: read(f, EVENT_LINE + w.kind) == Next(f.(kind := w.kind)))
    && TakesData(read, w.data)
  }

  function Filled(w: Wire): Frame
    requires w.Message?
  {
    Frame(w.id, w.kind, w.data, Some(w.crc))
  }

  /** All lines of a message but the blank one fill the frame. */
  lemma ReadMessage(read: Reader, w: Wire, more: seq<Bytes>, last: Ender)
    requires w.Message? && TakesMessage(read, w)
    ensures RunTexts(read, FRESH_FRAME, WireLines(w) + more, last) == RunTexts(read, Filled(w), [[]] + more, last)
  {
    var t3 := DataLines(w.data) + ([[]] + more);
    var t2 := [EVENT_LINE + w.kind] + t3;
    var t1 := [ID_LINE + w.id] + t2;
    var f1 := FRESH_FRAME.(crc := Some(w.crc));
    var f2 := f1.(id := w.id);
    var f3 := f2.(kind := w.kind);
    assert WireLines(w) + more == [CRC_LINE + w.crc] + t1;
    ReadNext(read, FRESH_FRAME, CRC_LINE + w.crc, t1, last);
    ReadNext(read, f1, ID_LINE + w.id, t2, last);
    ReadNext(read, f2, EVENT_LINE + w.kind, t3, last);
    assert w.data[0..] == w.data;
    ReadData(read, f3, w.data, 0, [[]] + more, last);
  }

  lemma DataTaken(c: Codec, data: seq<Bytes>)
    requires forall i :: 0 <= i < |data| ==> LineText(DATA_LINE + data[i])
    requires |Join(data)| <= MAX_SSE_EVENT_BYTES
    ensures TakesData(LineReader(c), data)
  {
    forall f: Frame, i | 0 <= i < |data| && f.lines == data[..i]
      ensures LineReader(c)(f, DATA_LINE + data[i]) == Next(f.(lines := data[..i + 1]))
    {
      assert data[..i + 1] == data[..i] + [data[i]];
      JoinMonotone(data, i + 1);
      StepData(c, f, data[i]);
    }
  }

  lemma WellFormedTaken(c: Codec, w: Wire)
    requires WellFormed(w)
    ensures TakesMessage(LineReader(c), w)
  {
    var read := LineReader(c);
    forall f: Frame ensures read(f, CRC_LINE + w.crc) == Next(f.(crc := Some(w.crc))) { StepChecksum(c, f, w.crc); }
    forall f: Frame ensures read(f, ID_LINE + w.id) == Next(f.(id := w.id)) { StepId(c, f, w.id); }
    forall f: Frame ensures read(f, EVENT_LINE + w.kind) == Next(f.(kind := w.kind)) { StepEvent(c, f, w.kind); }
    DataTaken(c, w.data);
  }

  /** A reader that turns `w` into the given event, or into nothing. */
  ghost predicate Takes(read: Reader, w: Wire, event: Option<Event>) {
    match w
    case Heartbeat(note) => event == None && read(FRESH_FRAME, [COLON] + note) == read(FRESH_FRAME, []) == Next(FRESH_FRAME)
    case Message(_, _, _, _) => TakesMessage(read, w) && event.Some? && read(Filled(w), []) == Emit(event.value)
  }

  lemma PrintableTaken(c: Codec, w: Wire)
    requires Printable(c, w)
    ensures Takes(LineReader(c), w, Carried(c, w))
  {
    if w.Message? {
      WellFormedTaken(c, w);
    }
  }

  lemma ReadWire(read: Reader, w: Wire, event: Option<Event>, more: seq<Bytes>, last: Ender)
    requires Takes(read, w, event)
    ensures RunTexts(read, FRESH_FRAME, WireLines(w) + more, last) == After(Listed(event), RunTexts(read, FRESH_FRAME, more, last))
  {
    if w.Heartbeat? {
      assert WireLines(w) + more == [[COLON] + w.note] + ([[]] + more);
      ReadNext(read, FRESH_FRAME, [COLON] + w.note, [[]] + more, last);
      ReadNext(read, FRESH_FRAME, [], more, last);
    } else {
      ReadMessage(read, w, more, last);
      assert ([[]] + more)[1..] == more;
    }
  }

  lemma AfterAfter(a: seq<Event>, b: seq<Event>, o: Outcome)
    ensures After(a, After(b, o)) == After(a + b, o)
  {
    assert a + (b + o.events) == a + b + o.events;
  }

  lemma AllLinesHead(ws: seq<Wire>, more: seq<Bytes>)
    requires ws != []
    ensures AllLines(ws) + more == WireLines(ws[0]) + (AllLines(ws[1..]) + more)
  {}

  /** Printed messages and heartbeats read back as their events. */
  lemma {:induction false} ReadWires(c: Codec, ws: seq<Wire>, more: seq<Bytes>, last: Ender)
    requires AllPrintable(c, ws)
    ensures RunTexts(LineReader(c), FRESH_FRAME, AllLines(ws) + more, last)
         == After(EventsOf(c, ws), RunTexts(LineReader(c), FRESH_FRAME, more, last))
    decreases |ws|
  {
    var read := LineReader(c);
    if ws == [] {
      assert AllLines(ws) + more == more;
    } else {
      AllLinesHead(ws, more);
      PrintableTaken(c, ws[0]);
      ReadWire(read, ws[0], Carried(c, ws[0]), AllLines(ws[1..]) + more, last);
      ReadWires(c, ws[1..], more, last);
      AfterAfter(Listed(Carried(c, ws[0])), EventsOf(c, ws[1..]), RunTexts(read, FRESH_FRAME, more, last));
    }
  }

  lemma {:induction false} PrintableLines(c: Codec, ws: seq<Wire>)
    requires AllPrintable(c, ws)
    ensures forall i :: 0 <= i < |AllLines(ws)| ==> LineText(AllLines(ws)[i])
    decreases |ws|
  {
    if ws != [] {
      assert Printable(c, ws[0]);
      PrintableLines(c, ws[1..]);
      if ws[0].Message? {
        WellFormedLines(c, ws[0]);
      }
    }
  }

  lemma {:induction false} DataLinesText(data: seq<Bytes>)
    requires forall i :: 0 <= i < |data| ==> LineText(DATA_LINE + data[i])
    ensures forall i :: 0 <= i < |DataLines(data)| ==> LineText(DataLines(data)[i])
  {
    if data != [] {
      DataLinesText(data[1..]);
    }
  }

  lemma WellFormedLines(c: Codec, w: Wire)
    requires WellFormed(w)
    ensures forall i :: 0 <= i < |WireLines(w)| ==> LineText(WireLines(w)[i])
  {
    StepChecksum(c, FRESH_FRAME, w.crc);
    DataLinesText(w.data);
  }

  lemma {:induction false} TextOfLines(lines: seq<Line>, i: nat)
    requires i < |lines|
    ensures |Texts(lines)| == |lines| && Texts(lines)[i] == lines[i].text
  {
    if i > 0 {
      TextOfLines(lines[1..], i - 1);
    } else if |lines| > 1 {
      TextOfLines(lines[1..], 0);
    }
  }

  /** Round trip: parsing the printed layout, whatever each line's ending, gives back exactly the printed events and
      leaves nothing behind. */
  lemma RoundTrip(c: Codec, ws: seq<Wire>, lines: seq<Line>)
    requires AllPrintable(c, ws) && Texts(lines) == AllLines(ws)
    ensures Parse(c, Text(lines)) == Outcome(EventsOf(c, ws), Waiting(FRESH_FRAME, []))
  {
    PrintableLines(c, ws);
    forall i | 0 <= i < |lines| ensures LineText(lines[i].text) { TextOfLines(lines, i); }
    RunLines(c, FRESH_FRAME, lines, []);
    assert Text(lines) + [] == Text(lines);
    ReadWires(c, ws, [], RestOf(c, []));
    assert AllLines(ws) + [] == AllLines(ws);
  }

  /** A damaged frame is caught: when the checksum of a frame does not match, the parser yields exactly the events
      before it and reports that frame, whatever bytes follow. */
  lemma DamagedFrame(c: Codec, ws: seq<Wire>, bad: Wire, lines: seq<Line>, junk: Bytes)
    requires AllPrintable(c, ws) && Texts(lines) == AllLines(ws) + WireLines(bad)
    requires WellFormed(bad) && c.crc(bad.kind, Join(bad.data)) != bad.crc
    ensures Parse(c, Text(lines) + junk) == Outcome(EventsOf(c, ws), Failed(ChecksumMismatch(bad.id)))
  {
    PrintableLines(c, ws);
    WellFormedLines(c, bad);
    forall i | 0 <= i < |lines| ensures LineText(lines[i].text) { TextOfLines(lines, i); }
    RunLines(c, FRESH_FRAME, lines, junk);
    var read, last := LineReader(c), RestOf(c, junk);
    ReadWires(c, ws, WireLines(bad), last);
    WellFormedTaken(c, bad);
    ReadMessage(read, bad, [], last);
    assert WireLines(bad) + [] == WireLines(bad);
    var blank: seq<Bytes> := [[]];
    assert blank + [] == blank;
    assert read(Filled(bad), []) == Fail(ChecksumMismatch(bad.id));
    assert RunTexts(read, Filled(bad), blank, last) == Outcome([], Failed(ChecksumMismatch(bad.id)));
  }

  /** The checksum covers the event name and the data, not the id: a message whose id was replaced by another admitted one
      is as good a frame as before, and its event carries the other id. */
  lemma IdUnprotected(c: Codec, w: Wire, id: Bytes)
    requires w.Message? && Printable(c, w) && LineText(ID_LINE + id) && 0 !in id
    requires c.admits(id, c.decode(Join(w.data)).value)
    ensures Printable(c, w.(id := id))
    ensures Carried(c, w.(id := id)) == Some(Carried(c, w).value.(id := id))
  {
    hide Join, LStrip, LineText, ChecksumText;
  }

  // A frame of any lines inside a printed log --------------------------------------------------

  predicate FrameLines(texts: seq<Bytes>) {
    (forall i :: 0 <= i < |texts| ==> LineText(texts[i]) && texts[i] != []) && Readable(texts)
  }

  lemma {:induction false} ReadFrame(c: Codec, texts: seq<Bytes>, n: nat, last: Ender)
    requires n <= |texts| && FrameLines(texts)
    ensures RunTexts(LineReader(c), FrameOf(texts[..n]), texts[n..] + [[]], last)
         == RunTexts(LineReader(c), FrameOf(texts), [[]], last)
    decreases |texts| - n
  {
    hide FrameOf, StepLine, Unreadable, RunTexts;
    var blank: seq<Bytes> := [[]];
    if n == |texts| {
      assert texts[..n] == texts && texts[n..] + blank == blank;
    } else {
      var first := texts[..n + 1];
      assert first[..n] == texts[..n] && first[n] == texts[n];
      LineStays(texts[n]);
      LineMeaning(c, first);
      UnreadableBefore(texts, n + 1, n);
      assert texts[n..] + blank == [texts[n]] + (texts[n + 1..] + blank);
      ReadNext(LineReader(c), FrameOf(texts[..n]), texts[n], texts[n + 1..] + blank, last);
      ReadFrame(c, texts, n + 1, last);
    }
  }

  lemma LineStays(s: Bytes)
    requires LineText(s)
    ensures StripCr(s) == s
  {}

  /** A frame of any readable lines, after a printed log and before anything: it yields one event exactly when nothing is
      wrong with it, is dropped with all its fields when it has no data, and otherwise ends the parse with the first thing
      that is wrong. */
  lemma FrameInLog(c: Codec, ws: seq<Wire>, texts: seq<Bytes>, lines: seq<Line>, rest: Bytes)
    requires AllPrintable(c, ws) && FrameLines(texts) && Texts(lines) == AllLines(ws) + (texts + [[]])
    ensures var d, whole := Describe(texts), Parse(c, Text(lines) + rest);
            && (Emits(c, d) ==>
                  whole == After(EventsOf(c, ws) + [Event(d.id, c.decode(d.data).value)], Parse(c, rest)))
            && (Blank(d.data) ==> whole == After(EventsOf(c, ws), Parse(c, rest)))
            && (!Blank(d.data) && !Emits(c, d) ==>
                  whole.events == EventsOf(c, ws) && whole.end.Failed? && WrongWith(c, d, whole.end.failure))
  {
    var read, last := LineReader(c), RestOf(c, rest);
    var blank: seq<Bytes> := [[]];
    PrintableLines(c, ws);
    assert LineText([]);
    forall i | 0 <= i < |lines| ensures LineText(lines[i].text) { TextOfLines(lines, i); }
    RunLines(c, FRESH_FRAME, lines, rest);
    ReadWires(c, ws, texts + blank, last);
    NothingUnreadable();
    assert texts[..0] == [] && texts[0..] == texts;
    ReadFrame(c, texts, 0, last);
    BlankLine(c, texts);
    BlankEnds(c, FrameOf(texts), rest);
    var r := StepLine(c, FrameOf(texts), []);
    hide *;
    if r.Emit? { AfterAfter(EventsOf(c, ws), [r.event], Parse(c, rest)); }
    AfterFails(EventsOf(c, ws), if r.Fail? then r.failure else BadJson);
  }

  lemma AfterFails(events: seq<Event>, failure: Failure)
    ensures After(events, Outcome([], Failed(failure))) == Outcome(events, Failed(failure))
  {}

  lemma BlankEnds(c: Codec, f: Frame, rest: Bytes)
    ensures var r, o := StepLine(c, f, []), RunTexts(LineReader(c), f, [[]], RestOf(c, rest));
            match r
            case Fail(e) => o == Outcome([], Failed(e))
            case Next(g) => g == FRESH_FRAME ==> o == Parse(c, rest)
            case Emit(e) => o == After([e], Parse(c, rest))
  {
    hide StepLine;
  }
}

/** The chat stream: an incremental reader of server-sent events. */
module SseStream {
  import opened Options

  // Text arrives cut at arbitrary places; the reader keeps an unfinished line in a
  // buffer and an unfinished event in two variables. The reference it is proved
  // against reads the whole text at once.

  const LF := '\n'
  const CR := '\r'

  // ------------------------------------------------------------------
  // Payloads
  // ------------------------------------------------------------------

  /** Parsed JSON; numbers, booleans and null are scalars of a known truthiness. */
  datatype JsonValue =
    | JString(text: string)
    | JObject(fields: map<string, JsonValue>)
    | JArray(items: seq<JsonValue>)
    | JScalar(truthy: bool)

  datatype Callback = Delta(text: string) | ToolCall(event: JsonValue)

  datatype Ending = EndOfStream | DoneSignal | StreamError(message: string)

  /** JSON parsing, JavaScript's String(), the removal of a leading "Error:" from a
      message, and whether the caller listens to tool calls. */
  datatype Host = Host(parseJson: string -> Option<JsonValue>, render: JsonValue -> string,
                       stripError: string -> string, wantsToolCalls: bool)

  function Field(value: Option<JsonValue>, name: string): Option<JsonValue> {
    if value.Some? && value.value.JObject? && name in value.value.fields then Some(value.value.fields[name]) else None
  }

  function FirstItem(value: Option<JsonValue>): Option<JsonValue> {
    if value.None? then None
    else match value.value
      case JArray(items) => if items == [] then None else Some(items[0])
      case JString(text) => if text == [] then None else Some(JString(text[..1]))
      case JObject(_) => Field(value, "0")
      case JScalar(_) => None
  }

  predicate Truthy(value: Option<JsonValue>) {
    value.Some? &&
    match value.value
    case JString(text) => text != []
    case JScalar(truthy) => truthy
    case _ => true
  }

  /** The first truthy one of the places a delta's text may be. */
  function DeltaValue(value: JsonValue): Option<JsonValue> {
    var v := Some(value);
    var choice := Field(Field(FirstItem(Field(v, "choices")), "delta"), "content");
    if value.JString? && Truthy(v) then v
    else if Truthy(Field(v, "delta")) then Field(v, "delta")
    else if Truthy(Field(v, "text")) then Field(v, "text")
    else if Truthy(Field(v, "content")) then Field(v, "content")
    else if Truthy(choice) then choice
    else None
  }

  function JoinWithLf(lines: seq<string>): string {
    if lines == [] then ""
    else if |lines| == 1 then lines[0]
    else lines[0] + [LF] + JoinWithLf(lines[1..])
  }

  // ------------------------------------------------------------------
  // The reference: the whole text at once
  // ------------------------------------------------------------------

  datatype Split = Split(lines: seq<string>, rest: string)

  /** The lines a line feed ends, and what follows the last one. */
  function SplitLines(text: string): Split {
    if text == [] then Split([], [])
    else
      var before := SplitLines(text[..|text| - 1]);
      if text[|text| - 1] == LF then Split(before.lines + [before.rest], [])
      else Split(before.lines, before.rest + [text[|text| - 1]])
  }

  function StripCr(line: string): string {
    if line != [] && line[|line| - 1] == CR then line[..|line| - 1] else line
  }

  function IndexOfChar(s: string, c: char): (i: nat)
    ensures i <= |s| && (i < |s| ==> s[i] == c)
    ensures forall k | 0 <= k < i :: s[k] != c
  {
    if s == [] || s[0] == c then 0 else 1 + IndexOfChar(s[1..], c)
  }

  /** What stands before the first colon. */
  function FieldName(line: string): string {
    line[..IndexOfChar(line, ':')]
  }

  /** What stands after the first colon, one leading space dropped. */
  function FieldValue(line: string): string {
    var colon := IndexOfChar(line, ':');
    if colon == |line| then []
    else if colon + 1 < |line| && line[colon + 1] == ' ' then line[colon + 2..]
    else line[colon + 1..]
  }

  /** The data of a block of lines: the values of its data fields. */
  function DataOf(block: seq<string>): seq<string> {
    if block == [] then []
    else DataOf(block[..|block| - 1]) +
         if FieldName(block[|block| - 1]) == "data" then [FieldValue(block[|block| - 1])] else []
  }

  /** The type of a block of lines: its last event field, if any. */
  function TypeOf(block: seq<string>): Option<string> {
    if block == [] then None
    else if FieldName(block[|block| - 1]) == "event" then Some(FieldValue(block[|block| - 1]))
    else TypeOf(block[..|block| - 1])
  }

  datatype Event = Event(eventType: Option<string>, data: seq<string>)

  datatype Blocks = Blocks(events: seq<Event>, open: seq<string>)

  /** Blocks end at empty lines; one without data is no event. */
  function BlocksOf(lines: seq<string>): Blocks {
    if lines == [] then Blocks([], [])
    else
      var before := BlocksOf(lines[..|lines| - 1]);
      var line := StripCr(lines[|lines| - 1]);
      if line != [] then Blocks(before.events, before.open + [line])
      else if DataOf(before.open) == [] then Blocks(before.events, [])
      else Blocks(before.events + [Event(TypeOf(before.open), DataOf(before.open))], [])
  }

  datatype Outcome = Outcome(callbacks: seq<Callback>, ending: Ending)

  /** What one event does. */
  function Dispatch(host: Host, event: Event): Outcome {
    var payload := JoinWithLf(event.data);
    if payload == "[DONE]" then Outcome([], DoneSignal)
    else if event.eventType == Some("error") then Outcome([], StreamError(host.stripError(payload)))
    else if event.eventType == Some("tool_call") && host.wantsToolCalls then
      match host.parseJson(payload)
      case Some(value) => Outcome([ToolCall(value)], EndOfStream)
      case None => Outcome([], EndOfStream)
    else
      match host.parseJson(payload)
      case None => Outcome([Delta(payload)], EndOfStream)
      case Some(value) =>
        if DeltaValue(value).Some? then Outcome([Delta(host.render(DeltaValue(value).value))], EndOfStream)
        else Outcome([], EndOfStream)
  }

  /** Events in order, until one ends the stream. */
  function OutcomeOf(host: Host, events: seq<Event>): Outcome {
    if events == [] then Outcome([], EndOfStream)
    else
      var before := OutcomeOf(host, events[..|events| - 1]);
      if before.ending != EndOfStream then before
      else
        var last := Dispatch(host, events[|events| - 1]);
        Outcome(before.callbacks + last.callbacks, last.ending)
  }

  /** The whole text followed by two line feeds, which finish a last line and a last event. */
  function OneShot(host: Host, text: string): Outcome {
    OutcomeOf(host, BlocksOf(SplitLines(text + [LF, LF]).lines).events)
  }

  function Concat(chunks: seq<string>): string {
    if chunks == [] then [] else Concat(chunks[..|chunks| - 1]) + chunks[|chunks| - 1]
  }

  // ------------------------------------------------------------------
  // Facts about the reference
  // ------------------------------------------------------------------

  lemma {:induction false} SplitNoLf(text: string, word: string)
    requires forall k | 0 <= k < |word| :: word[k] != LF
    ensures SplitLines(text + word) == Split(SplitLines(text).lines, SplitLines(text).rest + word)
  {
    if word == [] {
      assert text + word == text;
    } else {
      var shorter := word[..|word| - 1];
      assert (text + word)[..|text + word| - 1] == text + shorter;
      SplitNoLf(text, shorter);
      assert shorter + [word[|word| - 1]] == word;
    }
  }

  lemma SplitLine(text: string, word: string)
    requires SplitLines(text).rest == [] && forall k | 0 <= k < |word| :: word[k] != LF
    ensures SplitLines(text + word + [LF]) == Split(SplitLines(text).lines + [word], [])
  {
    hide SplitLines;
    SplitNoLf(text, word);
    assert [] + word == word;
    SplitEnds(text + word);
  }

  lemma SplitEnds(text: string)
    ensures SplitLines(text + [LF]) == Split(SplitLines(text).lines + [SplitLines(text).rest], [])
  {
    assert (text + [LF])[..|text|] == text;
  }

  lemma {:induction false} SplitExtends(text: string, more: string)
    ensures SplitLines(text).lines <= SplitLines(text + more).lines
  {
    if more == [] {
      assert text + more == text;
    } else {
      assert (text + more)[..|text + more| - 1] == text + more[..|more| - 1];
      SplitExtends(text, more[..|more| - 1]);
    }
  }

  lemma {:induction false} BlocksExtend(lines: seq<string>, more: seq<string>)
    ensures BlocksOf(lines).events <= BlocksOf(lines + more).events
  {
    if more == [] {
      assert lines + more == lines;
    } else {
      assert (lines + more)[..|lines + more| - 1] == lines + more[..|more| - 1];
      BlocksExtend(lines, more[..|more| - 1]);
    }
  }

  /** Once an event has ended the stream, later events change nothing. */
  lemma {:induction false} EndedStaysEnded(host: Host, events: seq<Event>, more: seq<Event>)
    requires OutcomeOf(host, events).ending != EndOfStream
    ensures OutcomeOf(host, events + more) == OutcomeOf(host, events)
  {
    if more == [] {
      assert events + more == events;
    } else {
      assert (events + more)[..|events + more| - 1] == events + more[..|more| - 1];
      EndedStaysEnded(host, events, more[..|more| - 1]);
    }
  }

  lemma EndedByLines(host: Host, lines: seq<string>, all: seq<string>)
    requires lines <= all && OutcomeOf(host, BlocksOf(lines).events).ending != EndOfStream
    ensures OutcomeOf(host, BlocksOf(all).events) == OutcomeOf(host, BlocksOf(lines).events)
  {
    var more := all[|lines|..];
    assert all == lines + more;
    BlocksExtend(lines, more);
    var events, later := BlocksOf(lines).events, BlocksOf(all).events;
    assert later == events + later[|events|..];
    EndedStaysEnded(host, events, later[|events|..]);
  }

  // ------------------------------------------------------------------
  // The reader
  // ------------------------------------------------------------------

  class StreamReader {
    const host: Host
    var buffer: string
    var eventType: Option<string>
    var dataLines: seq<string>
    var callbacks: seq<Callback>
    var ending: Ending

    /** The reader after the lines `lines`: its event variables hold the open block. */
    ghost predicate HasRead(lines: seq<string>)
      reads `eventType, `dataLines, `callbacks, `ending
    {
      && eventType == TypeOf(BlocksOf(lines).open) && dataLines == DataOf(BlocksOf(lines).open)
      && Outcome(callbacks, ending) == OutcomeOf(host, BlocksOf(lines).events)
    }

    /** As HasRead, once the stream may have been ended by an event. */
    ghost predicate HasReadOrEnded(lines: seq<string>)
      reads `eventType, `dataLines, `callbacks, `ending
    {
      && Outcome(callbacks, ending) == OutcomeOf(host, BlocksOf(lines).events)
      && (ending == EndOfStream ==> HasRead(lines))
    }

    constructor (host: Host)
      ensures this.host == host && HasRead([]) && buffer == [] && ending == EndOfStream
    {
      this.host := host;
      buffer, eventType, dataLines, callbacks, ending := [], None, [], [], EndOfStream;
    }

    /** Ends the open event, if it has data. */
    method Flush()
      requires ending == EndOfStream
      modifies `eventType, `dataLines, `callbacks, `ending
      ensures eventType == None && dataLines == []
      ensures old(dataLines) == [] ==> callbacks == old(callbacks) && ending == old(ending)
      ensures old(dataLines) != [] ==>
        var last := Dispatch(host, Event(old(eventType), old(dataLines)));
        callbacks == old(callbacks) + last.callbacks && ending == last.ending
    {
      if |dataLines| == 0 {
        eventType := None;
        return;
      }
      var payload := JoinWithLf(dataLines);
      dataLines := [];
      var ev := eventType;
      eventType := None;
      if payload == "[DONE]" {
        ending := DoneSignal;
        return;
      }
      if ev == Some("error") {
        ending := StreamError(host.stripError(payload));
        return;
      }
      if ev == Some("tool_call") && host.wantsToolCalls {
        var parsed := host.parseJson(payload);
        if parsed.Some? {
          callbacks := callbacks + [ToolCall(parsed.value)];
        }
        return;
      }
      match host.parseJson(payload)
      case Some(value) =>
        var text := DeltaValue(value);
        if text.Some? {
          callbacks := callbacks + [Delta(host.render(text.value))];
        }
      case None =>
        callbacks := callbacks + [Delta(payload)];
    }

    /** One complete line, without its line feed. */
    method TakeLine(line: string, ghost lines: seq<string>)
      requires ending == EndOfStream && HasRead(lines)
      modifies `eventType, `dataLines, `callbacks, `ending
      ensures HasReadOrEnded(lines + [line])
    {
      hide Dispatch, FieldName, FieldValue;
      assert (lines + [line])[..|lines|] == lines;
      ghost var block := BlocksOf(lines).open;
      var rawLine := StripCr(line);
      if rawLine == [] {
        ghost var event := Event(eventType, dataLines);
        assert dataLines != [] ==> (BlocksOf(lines).events + [event])[..|BlocksOf(lines).events|] == BlocksOf(lines).events;
        Flush();
        return;
      }
      assert (block + [rawLine])[..|block|] == block;
      OneMoreField(block, rawLine);
      if rawLine[0] == ':' {
        CommentHasNoField(rawLine);
        return;
      }
      var field := FieldName(rawLine);
      var val := FieldValue(rawLine);
      if field == "data" {
        dataLines := dataLines + [val];
      } else if field == "event" {
        eventType := Some(val);
      }
    }

    /** Takes every complete line out of the buffer, unless an event ends the stream.
        `consumed` is the text already taken out, `lines` its lines. */
    method DrainBuffer(ghost consumed0: string, ghost lines0: seq<string>)
      returns (ghost consumed: string, ghost lines: seq<string>)
      requires ending == EndOfStream && HasRead(lines0) && SplitLines(consumed0) == Split(lines0, [])
      modifies this
      ensures consumed + buffer == consumed0 + old(buffer)
      ensures SplitLines(consumed) == Split(lines, []) && HasReadOrEnded(lines)
      ensures ending == EndOfStream ==> forall k | 0 <= k < |buffer| :: buffer[k] != LF
    {
      hide SplitLines, HasRead, HasReadOrEnded;
      consumed, lines := consumed0, lines0;
      ReadIsEnough();
      var nl := IndexOfChar(buffer, LF);
      while nl < |buffer|
        invariant nl == IndexOfChar(buffer, LF)
        invariant ending == EndOfStream && HasRead(lines) && HasReadOrEnded(lines)
        invariant consumed + buffer == consumed0 + old(buffer) && SplitLines(consumed) == Split(lines, [])
        decreases |buffer|
      {
        var line := buffer[..nl];
        ghost var whole := buffer;
        buffer := buffer[nl + 1..];
        SplitLine(consumed, line);
        assert consumed + whole == consumed + line + [LF] + buffer;
        TakeLine(line, lines);
        consumed, lines := consumed + line + [LF], lines + [line];
        if ending != EndOfStream {
          return;
        }
        EnoughIsRead(lines);
        nl := IndexOfChar(buffer, LF);
      }
    }

    lemma EndedOutcome(lines: seq<string>)
      requires HasReadOrEnded(lines)
      ensures OutcomeOf(host, BlocksOf(lines).events) == Outcome(callbacks, ending)
    {
    }

    lemma ReadIsEnough()
      ensures forall lines :: HasRead(lines) && ending == EndOfStream ==> HasReadOrEnded(lines)
    {
    }

    lemma EnoughIsRead(lines: seq<string>)
      requires HasReadOrEnded(lines) && ending == EndOfStream
      ensures HasRead(lines)
    {
    }
  }

  lemma NothingLeft(text: string, consumed: string, buffer: string, lines: seq<string>)
    requires text == consumed + buffer && text != [] && text[|text| - 1] == LF
    requires SplitLines(consumed) == Split(lines, []) && forall k | 0 <= k < |buffer| :: buffer[k] != LF
    ensures SplitLines(text).lines == lines
  {
    hide SplitLines;
    assert forall k | 0 <= k < |buffer| :: text[|consumed| + k] == buffer[k];
    assert buffer == [];
    assert consumed + buffer == consumed;
  }

  lemma EndedEarly(host: Host, text: string, consumed: string, lines: seq<string>)
    requires consumed <= text && SplitLines(consumed).lines == lines
    requires OutcomeOf(host, BlocksOf(lines).events).ending != EndOfStream
    ensures OutcomeOf(host, BlocksOf(SplitLines(text).lines).events) == OutcomeOf(host, BlocksOf(lines).events)
  {
    hide SplitLines, BlocksOf, OutcomeOf;
    SplitExtends(consumed, text[|consumed|..]);
    assert text == consumed + text[|consumed|..];
    EndedByLines(host, lines, SplitLines(text).lines);
  }

  lemma ConcatOneMore(chunks: seq<string>, i: nat)
    requires i < |chunks|
    ensures Concat(chunks[..i + 1]) == Concat(chunks[..i]) + chunks[i]
    ensures Concat(chunks[..i + 1]) <= Concat(chunks)
  {
    assert chunks[..i + 1][..i] == chunks[..i];
    ConcatPrefix(chunks, i + 1);
  }

  lemma {:induction false} ConcatPrefix(chunks: seq<string>, i: nat)
    requires i <= |chunks|
    ensures Concat(chunks[..i]) <= Concat(chunks)
  {
    if i < |chunks| {
      var init := chunks[..|chunks| - 1];
      assert init[..i] == chunks[..i];
      ConcatPrefix(init, i);
    } else {
      assert chunks[..i] == chunks;
    }
  }

  /** Reading the chunks as they come gives what reading their concatenation at once gives. */
  method ChatStream(host: Host, chunks: seq<string>) returns (callbacks: seq<Callback>, ending: Ending)
    ensures Outcome(callbacks, ending) == OneShot(host, Concat(chunks))
  {
    hide *;
    var reader := new StreamReader(host);
    ghost var consumed: string, lines: seq<string> := [], [];
    ghost var text := Concat(chunks) + [LF, LF];
    NothingRead(chunks);
    assert consumed + reader.buffer == [];
    for i := 0 to |chunks|
      invariant fresh(reader) && reader.host == host
      invariant reader.ending == EndOfStream && reader.HasRead(lines)
      invariant SplitLines(consumed) == Split(lines, []) && consumed + reader.buffer == Concat(chunks[..i])
    {
      ConcatOneMore(chunks, i);
      reader.buffer := reader.buffer + chunks[i];
      assert consumed + reader.buffer == Concat(chunks[..i + 1]);
      consumed, lines := reader.DrainBuffer(consumed, lines);
      if reader.ending != EndOfStream {
        reader.EndedOutcome(lines);
        assert consumed <= text;
        EndedEarly(host, text, consumed, lines);
        OneShotIs(host, Concat(chunks));
        return reader.callbacks, reader.ending;
      }
      reader.EnoughIsRead(lines);
    }
    assert chunks[..|chunks|] == chunks;
    reader.buffer := reader.buffer + [LF, LF];
    assert consumed + reader.buffer == text;
    consumed, lines := reader.DrainBuffer(consumed, lines);
    reader.EndedOutcome(lines);
    OneShotIs(host, Concat(chunks));
    if reader.ending != EndOfStream {
      EndedEarly(host, text, consumed, lines);
    } else {
      NothingLeft(text, consumed, reader.buffer, lines);
    }
    return reader.callbacks, reader.ending;
  }

  lemma NothingRead(chunks: seq<string>)
    ensures SplitLines([]) == Split([], []) && Concat(chunks[..0]) == []
  {
  }

  lemma OneShotIs(host: Host, text: string)
    ensures OneShot(host, text) == OutcomeOf(host, BlocksOf(SplitLines(text + [LF, LF]).lines).events)
  {
  }

  lemma OneMoreField(block: seq<string>, line: string)
    ensures DataOf(block + [line]) == DataOf(block) + if FieldName(line) == "data" then [FieldValue(line)] else []
    ensures TypeOf(block + [line]) == if FieldName(line) == "event" then Some(FieldValue(line)) else TypeOf(block)
  {
    assert (block + [line])[..|block|] == block;
  }

  lemma CommentHasNoField(line: string)
    requires line != [] && line[0] == ':'
    ensures FieldName(line) == []
  {
  }

  /** The lines the chat server sends for an event (section 9.2.6 of the HTML Living Standard reads them). */
  function EncodedLines(event: Event): seq<string> {
    (if event.eventType.Some? then ["event: " + event.eventType.value] else []) + DataFields(event.data) + [""]
  }

  function DataFields(data: seq<string>): seq<string> {
    if data == [] then [] else DataFields(data[..|data| - 1]) + ["data: " + data[|data| - 1]]
  }

  function EncodedEvents(events: seq<Event>): seq<string> {
    if events == [] then [] else EncodedEvents(events[..|events| - 1]) + EncodedLines(events[|events| - 1])
  }

  function TextOf(lines: seq<string>): string {
    if lines == [] then [] else TextOf(lines[..|lines| - 1]) + lines[|lines| - 1] + [LF]
  }

  function ReceivedData(data: seq<string>): seq<string> {
    if data == [] then [] else ReceivedData(data[..|data| - 1]) + [StripCr(data[|data| - 1])]
  }

  /** What arrives: every sent line less one final carriage return. */
  function Received(event: Event): Event {
    Event(if event.eventType.Some? then Some(StripCr(event.eventType.value)) else None, ReceivedData(event.data))
  }

  function ReceivedEvents(events: seq<Event>): seq<Event> {
    if events == [] then [] else ReceivedEvents(events[..|events| - 1]) + [Received(events[|events| - 1])]
  }

  predicate OneLine(line: string) {
    forall k | 0 <= k < |line| :: line[k] != LF
  }

  /** An event whose type and data lines hold no line feed, with data to send. */
  predicate Sendable(event: Event) {
    && (event.eventType.Some? ==> OneLine(event.eventType.value))
    && event.data != [] && forall k | 0 <= k < |event.data| :: OneLine(event.data[k])
  }

  lemma {:induction false} IndexIs(s: string, c: char, i: nat)
    requires i < |s| && s[i] == c && forall k | 0 <= k < i :: s[k] != c
    ensures IndexOfChar(s, c) == i
  {
    if i > 0 { IndexIs(s[1..], c, i - 1); }
  }

  lemma FieldParts(name: string, value: string)
    requires name != [] && forall k | 0 <= k < |name| :: name[k] != ':'
    ensures var line := StripCr(name + ": " + value);
            line != [] && FieldName(line) == name && FieldValue(line) == StripCr(value)
  {
    var line := StripCr(name + ": " + value);
    assert line == name + ": " + StripCr(value);
    IndexIs(line, ':', |name|);
  }

  lemma {:induction false} SplitTextOf(lines: seq<string>)
    requires forall k | 0 <= k < |lines| :: OneLine(lines[k])
    ensures SplitLines(TextOf(lines)) == Split(lines, [])
  {
    if lines != [] {
      var init, last := lines[..|lines| - 1], lines[|lines| - 1];
      SplitTextOf(init);
      assert OneLine(last);
      SplitLine(TextOf(init), last);
      assert init + [last] == lines;
    }
  }

  lemma BlocksOneMore(lines: seq<string>, line: string)
    ensures BlocksOf(lines + [line]) ==
      var before := BlocksOf(lines);
      if StripCr(line) != [] then Blocks(before.events, before.open + [StripCr(line)])
      else if DataOf(before.open) == [] then Blocks(before.events, [])
      else Blocks(before.events + [Event(TypeOf(before.open), DataOf(before.open))], [])
  {
    assert (lines + [line])[..|lines|] == lines;
  }

  /** Data fields read one after the other into the open block. */
  lemma {:induction false} DataFieldsRead(lines: seq<string>, data: seq<string>)
    ensures var b, a := BlocksOf(lines), BlocksOf(lines + DataFields(data));
            && a.events == b.events && TypeOf(a.open) == TypeOf(b.open)
            && DataOf(a.open) == DataOf(b.open) + ReceivedData(data)
  {
    hide BlocksOf, FieldName, FieldValue, StripCr, DataOf, TypeOf;
    if data == [] {
      assert lines + [] == lines;
      assert DataOf(BlocksOf(lines).open) + [] == DataOf(BlocksOf(lines).open);
    } else {
      var init, value := data[..|data| - 1], data[|data| - 1];
      DataFieldsRead(lines, init);
      var line := "data: " + value;
      assert lines + DataFields(data) == lines + DataFields(init) + [line];
      BlocksOneMore(lines + DataFields(init), line);
      FieldParts("data", value);
      assert line == "data" + ": " + value;
      OneMoreField(BlocksOf(lines + DataFields(init)).open, StripCr(line));
    }
  }

  lemma TypeRead(lines: seq<string>, eventType: string)
    requires BlocksOf(lines).open == []
    ensures var a := BlocksOf(lines + ["event: " + eventType]);
            && a.events == BlocksOf(lines).events && TypeOf(a.open) == Some(StripCr(eventType)) && DataOf(a.open) == []
  {
    hide BlocksOf, FieldName, FieldValue, StripCr;
    BlocksOneMore(lines, "event: " + eventType);
    FieldParts("event", eventType);
    assert "event: " + eventType == "event" + ": " + eventType;
    OneMoreField([], StripCr("event: " + eventType));
    assert [] + [StripCr("event: " + eventType)] == [StripCr("event: " + eventType)];
  }

  lemma NoFields()
    ensures DataOf([]) == [] && TypeOf([]) == None
  {
  }

  lemma EventRead(lines: seq<string>, event: Event)
    requires BlocksOf(lines).open == [] && event.data != []
    ensures BlocksOf(lines + EncodedLines(event)) == Blocks(BlocksOf(lines).events + [Received(event)], [])
  {
    hide BlocksOf, FieldName, FieldValue, DataOf, TypeOf;
    NoFields();
    var typed := lines + if event.eventType.Some? then ["event: " + event.eventType.value] else [];
    if event.eventType.Some? {
      TypeRead(lines, event.eventType.value);
    } else {
      assert typed == lines;
    }
    DataFieldsRead(typed, event.data);
    assert lines + EncodedLines(event) == typed + DataFields(event.data) + [""];
    BlocksOneMore(typed + DataFields(event.data), "");
    assert [] + ReceivedData(event.data) == ReceivedData(event.data);
  }

  lemma {:induction false} EventsRead(events: seq<Event>)
    requires forall k | 0 <= k < |events| :: Sendable(events[k])
    ensures BlocksOf(EncodedEvents(events)) == Blocks(ReceivedEvents(events), [])
  {
    if events != [] {
      EventsRead(events[..|events| - 1]);
      assert Sendable(events[|events| - 1]);
      EventRead(EncodedEvents(events[..|events| - 1]), events[|events| - 1]);
    }
  }

  lemma {:induction false} DataFieldsOneLine(data: seq<string>)
    requires forall k | 0 <= k < |data| :: OneLine(data[k])
    ensures forall k | 0 <= k < |DataFields(data)| :: OneLine(DataFields(data)[k])
  {
    if data != [] {
      DataFieldsOneLine(data[..|data| - 1]);
      assert OneLine(data[|data| - 1]);
    }
  }

  lemma {:induction false} EncodedOneLine(events: seq<Event>)
    requires forall k | 0 <= k < |events| :: Sendable(events[k])
    ensures forall k | 0 <= k < |EncodedEvents(events)| :: OneLine(EncodedEvents(events)[k])
  {
    if events != [] {
      var last := events[|events| - 1];
      EncodedOneLine(events[..|events| - 1]);
      assert Sendable(last);
      DataFieldsOneLine(last.data);
      hide EncodedEvents;
      var lines := EncodedLines(last);
      forall k | 0 <= k < |lines| ensures OneLine(lines[k]) {
        var t := if last.eventType.Some? then 1 else 0;
        assert t <= k < t + |DataFields(last.data)| ==> lines[k] == DataFields(last.data)[k - t];
      }
      EncodedSplits(events);
    }
  }

  lemma EncodedSplits(events: seq<Event>)
    requires events != []
    ensures EncodedEvents(events) == EncodedEvents(events[..|events| - 1]) + EncodedLines(events[|events| - 1])
  {
  }

  /** What the server sends is what the reader dispatches, for every list of events and
      every way the text is cut, each line less a final carriage return. */
  lemma SentIsReceived(host: Host, events: seq<Event>)
    requires forall k | 0 <= k < |events| :: Sendable(events[k])
    ensures OneShot(host, TextOf(EncodedEvents(events))) == OutcomeOf(host, ReceivedEvents(events))
  {
    hide OutcomeOf, TextOf, EncodedEvents, ReceivedEvents, Sendable;
    var lines := EncodedEvents(events);
    EncodedOneLine(events);
    SplitTextOf(lines);
    EventsRead(events);
    var text := TextOf(lines);
    SplitLine(text, []);
    SplitLine(text + [LF], []);
    assert text + [] + [LF] == text + [LF];
    assert text + [LF] + [] + [LF] == text + [LF, LF];
    BlocksOneMore(lines, []);
    BlocksOneMore(lines + [[]], []);
  }

  /** Nothing is lost in transit exactly when no sent line ends with a carriage return. */
  lemma {:induction false} DataSurvives(data: seq<string>)
    ensures ReceivedData(data) == data <==> forall k | 0 <= k < |data| :: StripCr(data[k]) == data[k]
    ensures |ReceivedData(data)| == |data|
  {
    if data != [] {
      hide StripCr;
      var init, last := data[..|data| - 1], data[|data| - 1];
      DataSurvives(init);
      assert data == init + [last];
      var received := ReceivedData(init);
      assert ReceivedData(data) == received + [StripCr(last)];
      assert received + [StripCr(last)] == init + [last] <==> received == init && StripCr(last) == last by {
        assert (received + [StripCr(last)])[..|init|] == received && (init + [last])[..|init|] == init;
        assert (received + [StripCr(last)])[|init|] == StripCr(last) && (init + [last])[|init|] == last;
      }
    }
  }

  /** An event arrives as it was sent exactly when no line of it, of its data or its type, ends with a
      carriage return. */
  lemma EventSurvives(event: Event)
    ensures Received(event) == event
        <==> (&& (event.eventType.Some? ==> StripCr(event.eventType.value) == event.eventType.value)
              && (forall k | 0 <= k < |event.data| :: StripCr(event.data[k]) == event.data[k]))
  {
    hide StripCr, ReceivedData;
    DataSurvives(event.data);
  }

  /** A list of events arrives as it was sent exactly when each of them does. */
  lemma {:induction false} AllSurvive(events: seq<Event>)
    ensures |ReceivedEvents(events)| == |events|
    ensures ReceivedEvents(events) == events <==> forall k | 0 <= k < |events| :: Received(events[k]) == events[k]
  {
    if events != [] {
      hide Received;
      var init, last := events[..|events| - 1], events[|events| - 1];
      AllSurvive(init);
      assert events == init + [last];
      var received := ReceivedEvents(init);
      assert ReceivedEvents(events) == received + [Received(last)];
      assert received + [Received(last)] == init + [last] <==> received == init && Received(last) == last by {
        assert (received + [Received(last)])[..|init|] == received && (init + [last])[..|init|] == init;
        assert (received + [Received(last)])[|init|] == Received(last) && (init + [last])[|init|] == last;
      }
    }
  }
}

/** Execution traces: steps read line by line from JSON lines and from a C# log. */
module TraceLog {
  import opened GraphTypes
  import opened Options

  type Json = string  // the text of a JSON value

  type Params = map<string, string>

  datatype TraceStep =
    | JsonStep(value: Json)
    | MethodStep(name: string, params: Params)
    | InsertStep(sql: string)

  datatype Variable = Variable(name: string, value: string)

  /** White space, JSON parsing and the three regular expressions. */
  datatype Reader = Reader(
    isSpace: char -> bool,
    parseJson: string -> Option<Json>,
    variableIn: string -> Option<Variable>,
    methodIn: string -> Option<string>,
    resultIn: string -> Option<string>)

  // ------------------------------------------------------------------
  // What a line says
  // ------------------------------------------------------------------

  /** A line's contents, in the order the parser looks for them. */
  datatype Event = JsonLine(value: Json) | Assigned(name: string, value: string) | Started(name: string) | Inserted(sql: string)

  function TrimStart(isSpace: char -> bool, s: string): string {
    if s != [] && isSpace(s[0]) then TrimStart(isSpace, s[1..]) else s
  }

  predicate IsBlank(reader: Reader, line: string) {
    TrimStart(reader.isSpace, line) == []
  }

  predicate StartsLikeJson(reader: Reader, line: string) {
    "{" <= TrimStart(reader.isSpace, line)
  }

  predicate EndsWith(s: string, end: string) {
    |s| >= |end| && s[|s| - |end|..] == end
  }

  /** The method a START line opens; file names caught by the expression are not methods. */
  function AcceptedStart(reader: Reader, line: string): Option<string> {
    if !(ContainsText(line, " START ") || ContainsText(line, "] START")) then None
    else match reader.methodIn(line)
      case None => None
      case Some(m) => if '.' in m && !EndsWith(m, ".cs") then Some(m) else None
  }

  function JsonOf(reader: Reader, line: string): Option<Json> {
    if StartsLikeJson(reader, line) then reader.parseJson(line) else None
  }

  function Assignments(reader: Reader, line: string): seq<Event> {
    if ContainsText(line, "Variable '") && reader.variableIn(line).Some?
    then [Assigned(reader.variableIn(line).value.name, reader.variableIn(line).value.value)] else []
  }

  function Starts(reader: Reader, line: string): seq<Event> {
    if AcceptedStart(reader, line).Some? then [Started(AcceptedStart(reader, line).value)] else []
  }

  function Inserts(line: string): seq<Event> {
    if ContainsText(line, "===== EF INSERT =====") then [Inserted(line)] else []
  }

  function Results(reader: Reader, line: string): seq<Event> {
    if ContainsText(line, "] RESULT |") && reader.resultIn(line).Some?
    then [Assigned("return_value", reader.resultIn(line).value)] else []
  }

  function EventsOfLine(reader: Reader, line: string): seq<Event> {
    if IsBlank(reader, line) then []
    else if JsonOf(reader, line).Some? then [JsonLine(JsonOf(reader, line).value)]
    else Assignments(reader, line) + (Starts(reader, line) + (Inserts(line) + Results(reader, line)))
  }

  function EventsOf(reader: Reader, lines: seq<string>): seq<Event> {
    if lines == [] then []
    else EventsOfLine(reader, lines[0]) + EventsOf(reader, lines[1..])
  }

  // ------------------------------------------------------------------
  // The reference: methods and what follows them
  // ------------------------------------------------------------------

  /** How many events belong to the method just started: up to the next start or insert. */
  function SegmentLength(events: seq<Event>): (n: nat)
    ensures n <= |events|
    ensures forall k | 0 <= k < n :: !events[k].Started? && !events[k].Inserted?
    ensures n < |events| ==> events[n].Started? || events[n].Inserted?
  {
    if events == [] || events[0].Started? || events[0].Inserted? then 0 else 1 + SegmentLength(events[1..])
  }

  function JsonSteps(events: seq<Event>): seq<TraceStep> {
    if events == [] then []
    else (if events[0].JsonLine? then [JsonStep(events[0].value)] else []) + JsonSteps(events[1..])
  }

  /** The last value of every name, on top of what is known. */
  function LastValues(params: Params, events: seq<Event>): Params
    decreases |events|
  {
    if events == [] then params
    else LastValues(if events[0].Assigned? then params[events[0].name := events[0].value] else params, events[1..])
  }

  /** Each start gives one step, placed at the end of its segment, with its segment's last values. */
  function Steps(events: seq<Event>): seq<TraceStep>
    decreases |events|, 0
  {
    if events == [] then []
    else
      match events[0]
      case JsonLine(value) => [JsonStep(value)] + Steps(events[1..])
      case Inserted(sql) => [InsertStep(sql)] + Steps(events[1..])
      case Assigned(_, _) => Steps(events[1..])
      case Started(name) => Segment(name, map[], events[1..])
  }

  /** The steps from inside the segment of `name`, which knows `params` so far. */
  function Segment(name: string, params: Params, events: seq<Event>): seq<TraceStep>
    decreases |events|, 1
  {
    var n := SegmentLength(events);
    JsonSteps(events[..n]) + [MethodStep(name, LastValues(params, events[..n]))] + Steps(events[n..])
  }

  // ------------------------------------------------------------------
  // The state machine
  // ------------------------------------------------------------------

  datatype Machine = Machine(steps: seq<TraceStep>, currentMethod: string, currentParams: Params)

  /** Events the machine could have produced by now, were the log to end with `rest`. */
  function Promise(m: Machine, rest: seq<Event>): seq<TraceStep> {
    m.steps + if m.currentMethod == "" then Steps(rest) else Segment(m.currentMethod, m.currentParams, rest)
  }

  lemma SegmentStep(name: string, params: Params, events: seq<Event>)
    requires events != []
    ensures Segment(name, params, events) ==
      match events[0]
      case JsonLine(value) => [JsonStep(value)] + Segment(name, params, events[1..])
      case Assigned(n, v) => Segment(name, params[n := v], events[1..])
      case Inserted(_) => [MethodStep(name, params)] + Steps(events)
      case Started(_) => [MethodStep(name, params)] + Steps(events)
  {
    var n := SegmentLength(events);
    if n == 0 {
      assert events[..0] == [] && events[0..] == events;
    } else {
      hide Steps;
      assert events[..n][1..] == events[1..][..n - 1];
      assert events[n..] == events[1..][n - 1..];
    }
  }

  lemma PromiseAfterJson(m: Machine, value: Json, rest: seq<Event>)
    ensures Promise(m, [JsonLine(value)] + rest) == Promise(m.(steps := m.steps + [JsonStep(value)]), rest)
  {
    hide Segment;
    var events := [JsonLine(value)] + rest;
    assert events[1..] == rest;
    if m.currentMethod != "" { SegmentStep(m.currentMethod, m.currentParams, events); }
  }

  lemma PromiseAfterAssigned(m: Machine, name: string, value: string, rest: seq<Event>)
    ensures Promise(m, [Assigned(name, value)] + rest)
         == Promise(m.(currentParams := m.currentParams[name := value]), rest)
  {
    hide Segment;
    var events := [Assigned(name, value)] + rest;
    assert events[1..] == rest;
    if m.currentMethod != "" { SegmentStep(m.currentMethod, m.currentParams, events); }
  }

  /** The pending method, if any, becomes a step. */
  function Flushed(m: Machine): seq<TraceStep> {
    if m.currentMethod == "" then m.steps else m.steps + [MethodStep(m.currentMethod, m.currentParams)]
  }

  lemma PromiseAfterStarted(m: Machine, name: string, rest: seq<Event>)
    requires name != ""
    ensures Promise(m, [Started(name)] + rest) == Promise(Machine(Flushed(m), name, map[]), rest)
  {
    hide Segment;
    var events := [Started(name)] + rest;
    assert events[1..] == rest;
    if m.currentMethod != "" { SegmentStep(m.currentMethod, m.currentParams, events); }
  }

  lemma PromiseAfterInserted(m: Machine, sql: string, rest: seq<Event>, params: Params)
    ensures Promise(m, [Inserted(sql)] + rest) == Promise(Machine(Flushed(m) + [InsertStep(sql)], "", params), rest)
  {
    hide Segment;
    var events := [Inserted(sql)] + rest;
    assert events[1..] == rest;
    if m.currentMethod != "" { SegmentStep(m.currentMethod, m.currentParams, events); }
  }

  lemma PromiseAtEnd(m: Machine)
    ensures Promise(m, []) == Flushed(m)
  {
    var none: seq<Event> := [];
    assert none[..0] == none && none[0..] == none;
  }

  // ------------------------------------------------------------------
  // Parsing
  // ------------------------------------------------------------------

  datatype TraceError = NoSteps

  function ArraySteps(values: seq<Json>): (steps: seq<TraceStep>)
    ensures |steps| == |values| && forall k | 0 <= k < |steps| :: steps[k] == JsonStep(values[k])
  {
    seq(|values|, k requires 0 <= k < |values| => JsonStep(values[k]))
  }

  lemma NothingAdded(events: seq<Event>)
    ensures [] + events == events
  {
  }

  predicate AllBlank(reader: Reader, lines: seq<string>) {
    forall k | 0 <= k < |lines| :: IsBlank(reader, lines[k])
  }

  /** What holds after the first `i` lines. */
  ghost predicate HasRead(reader: Reader, lines: seq<string>, i: nat, m: Machine, hasCustomFormat: bool) {
    && i <= |lines|
    && Promise(m, EventsOf(reader, lines[i..])) == Steps(EventsOf(reader, lines))
    && (!hasCustomFormat ==> m.currentMethod == "")
    && ((m.steps == [] && !hasCustomFormat) <==> AllBlank(reader, lines[..i]))
  }

  lemma NothingRead(reader: Reader, lines: seq<string>)
    ensures HasRead(reader, lines, 0, Machine([], "", map[]), false)
  {
    hide EventsOf, Steps, IsBlank;
    assert lines[0..] == lines;
  }

  lemma ReadOneMore(reader: Reader, lines: seq<string>, i: nat, m: Machine, hasCustomFormat: bool)
    requires i < |lines| && HasRead(reader, lines, i, m, hasCustomFormat)
    ensures !hasCustomFormat ==> m.currentMethod == ""
    ensures Promise(m, EventsOfLine(reader, lines[i]) + EventsOf(reader, lines[i + 1..])) == Steps(EventsOf(reader, lines))
    ensures (m.steps == [] && !hasCustomFormat && IsBlank(reader, lines[i])) <==> AllBlank(reader, lines[..i + 1])
  {
    hide Promise, Steps, IsBlank, EventsOfLine;
    assert lines[i..][1..] == lines[i + 1..];
    assert lines[i..][0] == lines[i];
    forall k | 0 <= k <= i ensures lines[..i + 1][k] == if k < i then lines[..i][k] else lines[i] {
    }
  }

  lemma OneMoreRead(reader: Reader, lines: seq<string>, i: nat, m: Machine, hasCustomFormat: bool)
    requires i < |lines|
    requires Promise(m, EventsOf(reader, lines[i + 1..])) == Steps(EventsOf(reader, lines))
    requires !hasCustomFormat ==> m.currentMethod == ""
    requires (m.steps == [] && !hasCustomFormat) <==> AllBlank(reader, lines[..i + 1])
    ensures HasRead(reader, lines, i + 1, m, hasCustomFormat)
  {
    hide Promise, Steps, AllBlank, EventsOf;
  }

  lemma AllRead(reader: Reader, lines: seq<string>, m: Machine, hasCustomFormat: bool)
    requires HasRead(reader, lines, |lines|, m, hasCustomFormat)
    ensures Flushed(m) == Steps(EventsOf(reader, lines))
    ensures (Flushed(m) == [] && !hasCustomFormat) <==> AllBlank(reader, lines)
  {
    hide Promise, Steps, AllBlank;
    assert lines[..|lines|] == lines;
    PromiseAtEnd(m);
  }

  /** Reads one line that is neither blank nor JSON. */
  method ReadLogLine(reader: Reader, line: string, m0: Machine, ghost rest: seq<Event>) returns (m: Machine)
    requires !IsBlank(reader, line) && JsonOf(reader, line).None?
    ensures Promise(m, rest) == Promise(m0, EventsOfLine(reader, line) + rest)
  {
    hide Promise, ContainsText;
    var steps, currentMethod, currentParams := m0.steps, m0.currentMethod, m0.currentParams;
    ghost var tail := Results(reader, line) + rest;
    ghost var second := Inserts(line) + tail;
    ghost var first := Starts(reader, line) + second;
    assert EventsOfLine(reader, line) + rest == Assignments(reader, line) + first;
    assert m0 == Machine(steps, currentMethod, currentParams);
    NothingAdded(first);
    NothingAdded(second);
    NothingAdded(tail);
    NothingAdded(rest);
    if ContainsText(line, "Variable '") {
      match reader.variableIn(line)
      case None =>
      case Some(v) =>
        PromiseAfterAssigned(m0, v.name, v.value, first);
        currentParams := currentParams[v.name := v.value];
    }
    assert Promise(Machine(steps, currentMethod, currentParams), first)
        == Promise(m0, EventsOfLine(reader, line) + rest);
    match AcceptedStart(reader, line) {
      case None =>
      case Some(name) =>
        PromiseAfterStarted(Machine(steps, currentMethod, currentParams), name, second);
        steps := Flushed(Machine(steps, currentMethod, currentParams));
        currentMethod, currentParams := name, map[];
    }
    assert Promise(Machine(steps, currentMethod, currentParams), second)
        == Promise(m0, EventsOfLine(reader, line) + rest);
    if ContainsText(line, "===== EF INSERT =====") {
      PromiseAfterInserted(Machine(steps, currentMethod, currentParams), line, tail,
        if currentMethod == "" then currentParams else map[]);
      if currentMethod != "" {
        steps := steps + [MethodStep(currentMethod, currentParams)];
        currentMethod, currentParams := "", map[];
      }
      steps := steps + [InsertStep(line)];
    }
    assert Promise(Machine(steps, currentMethod, currentParams), tail)
        == Promise(m0, EventsOfLine(reader, line) + rest);
    if ContainsText(line, "] RESULT |") {
      match reader.resultIn(line)
      case None =>
      case Some(value) =>
        PromiseAfterAssigned(Machine(steps, currentMethod, currentParams), "return_value", value, rest);
        currentParams := currentParams["return_value" := value];
    }
    m := Machine(steps, currentMethod, currentParams);
  }

  /** Reads one line; `hasCustomFormat` records that some line was neither blank nor JSON. */
  method ReadLine(reader: Reader, line: string, m0: Machine, custom0: bool, ghost rest: seq<Event>)
    returns (m: Machine, hasCustomFormat: bool)
    requires !custom0 ==> m0.currentMethod == ""
    ensures Promise(m, rest) == Promise(m0, EventsOfLine(reader, line) + rest)
    ensures !hasCustomFormat ==> m.currentMethod == ""
    ensures (m.steps == [] && !hasCustomFormat) <==> (m0.steps == [] && !custom0 && IsBlank(reader, line))
  {
    hide Promise, TrimStart, ContainsText, JsonOf;
    m, hasCustomFormat := m0, custom0;
    if !IsBlank(reader, line) {
      match JsonOf(reader, line) {
        case Some(value) =>
          PromiseAfterJson(m, value, rest);
          m := m.(steps := m.steps + [JsonStep(value)]);
        case None =>
          hasCustomFormat := true;
          m := ReadLogLine(reader, line, m, rest);
      }
    } else {
      NothingAdded(rest);
    }
  }

  /** The steps of a trace: `jsonArray` is the parse of the whole text when that is a JSON array. */
  method ParseTrace(reader: Reader, jsonArray: Option<seq<Json>>, lines: seq<string>)
    returns (r: Result<seq<TraceStep>, TraceError>)
    ensures jsonArray.Some? ==> r == Ok(ArraySteps(jsonArray.value))
    ensures jsonArray.None? && AllBlank(reader, lines) ==> r == Err(NoSteps)
    ensures jsonArray.None? && !AllBlank(reader, lines) ==> r == Ok(Steps(EventsOf(reader, lines)))
  {
    hide *;
    if jsonArray.Some? {
      return Ok(ArraySteps(jsonArray.value));
    }
    var m := Machine([], "", map[]);
    var hasCustomFormat := false;
    NothingRead(reader, lines);
    var i := 0;
    while i < |lines|
      invariant i <= |lines|
      invariant HasRead(reader, lines, i, m, hasCustomFormat)
    {
      hide *;
      ReadOneMore(reader, lines, i, m, hasCustomFormat);
      m, hasCustomFormat := ReadLine(reader, lines[i], m, hasCustomFormat, EventsOf(reader, lines[i + 1..]));
      OneMoreRead(reader, lines, i, m, hasCustomFormat);
      i := i + 1;
    }
    AllRead(reader, lines, m, hasCustomFormat);
    var steps := Flushed(m);
    if steps == [] && !hasCustomFormat {
      r := Err(NoSteps);
    } else {
      r := Ok(steps);
    }
  }

  // ------------------------------------------------------------------
  // What the steps are
  // ------------------------------------------------------------------

  function MethodsOf(steps: seq<TraceStep>): seq<TraceStep> {
    if steps == [] then [] else (if steps[0].MethodStep? then [steps[0]] else []) + MethodsOf(steps[1..])
  }

  function OthersOf(steps: seq<TraceStep>): seq<TraceStep> {
    if steps == [] then [] else (if steps[0].MethodStep? then [] else [steps[0]]) + OthersOf(steps[1..])
  }

  /** One step for each start, with the last values assigned before the next start or insert. */
  function StartedMethods(events: seq<Event>): seq<TraceStep> {
    if events == [] then []
    else
      (if !events[0].Started? then []
       else [MethodStep(events[0].name, LastValues(map[], events[1..][..SegmentLength(events[1..])]))])
      + StartedMethods(events[1..])
  }

  function PlainSteps(events: seq<Event>): seq<TraceStep> {
    if events == [] then []
    else
      (match events[0]
       case JsonLine(value) => [JsonStep(value)]
       case Inserted(sql) => [InsertStep(sql)]
       case _ => [])
      + PlainSteps(events[1..])
  }

  lemma SplitFirst(step: TraceStep, steps: seq<TraceStep>)
    ensures MethodsOf([step] + steps) == (if step.MethodStep? then [step] else []) + MethodsOf(steps)
    ensures OthersOf([step] + steps) == (if step.MethodStep? then [] else [step]) + OthersOf(steps)
  {
    assert ([step] + steps)[1..] == steps;
  }

  lemma {:induction false} SegmentInOrder(name: string, params: Params, events: seq<Event>)
    ensures MethodsOf(Segment(name, params, events))
         == [MethodStep(name, LastValues(params, events[..SegmentLength(events)]))] + StartedMethods(events)
    ensures OthersOf(Segment(name, params, events)) == PlainSteps(events)
    decreases |events|, 1
  {
    hide MethodsOf, OthersOf, Steps, Segment;
    if events == [] || events[0].Started? || events[0].Inserted? {
      var n := SegmentLength(events);
      assert n == 0 && events[..n] == [] && events[n..] == events;
      assert Segment(name, params, events) == [MethodStep(name, params)] + Steps(events) by {
        hide *;
        EmptySegment(name, params, events);
      }
      StepsInOrder(events);
      SplitFirst(MethodStep(name, params), Steps(events));
    } else {
      SegmentStep(name, params, events);
      var n := SegmentLength(events);
      assert events[..n][1..] == events[1..][..n - 1];
      match events[0]
      case JsonLine(value) =>
        SegmentInOrder(name, params, events[1..]);
        SplitFirst(JsonStep(value), Segment(name, params, events[1..]));
      case Assigned(n, v) =>
        SegmentInOrder(name, params[n := v], events[1..]);
    }
  }

  lemma EmptySegment(name: string, params: Params, events: seq<Event>)
    requires events == [] || events[0].Started? || events[0].Inserted?
    ensures Segment(name, params, events) == [MethodStep(name, params)] + Steps(events)
  {
    assert events[..0] == [] && events[0..] == events;
  }

  /** Every start becomes exactly one method step, in order, with its segment's last values; JSON and
      insert steps keep their order among themselves. */
  lemma {:induction false} StepsInOrder(events: seq<Event>)
    ensures MethodsOf(Steps(events)) == StartedMethods(events)
    ensures OthersOf(Steps(events)) == PlainSteps(events)
    decreases |events|, 0
  {
    hide Segment, SegmentLength;
    if events != [] {
      match events[0]
      case JsonLine(value) =>
        StepsInOrder(events[1..]);
        SplitFirst(JsonStep(value), Steps(events[1..]));
      case Inserted(sql) =>
        StepsInOrder(events[1..]);
        SplitFirst(InsertStep(sql), Steps(events[1..]));
      case Assigned(_, _) =>
        StepsInOrder(events[1..]);
      case Started(name) =>
        SegmentInOrder(name, map[], events[1..]);
    }
  }

  lemma {:induction false} LastValueWins(params: Params, events: seq<Event>, k: nat)
    requires k < |events| && events[k].Assigned?
    requires forall j | k < j < |events| :: events[j].Assigned? ==> events[j].name != events[k].name
    ensures events[k].name in LastValues(params, events)
    ensures LastValues(params, events)[events[k].name] == events[k].value
    decreases |events|
  {
    var next := if events[0].Assigned? then params[events[0].name := events[0].value] else params;
    if k == 0 {
      UnassignedUnchanged(next, events[1..], events[0].name);
    } else {
      LastValueWins(next, events[1..], k - 1);
    }
  }

  lemma {:induction false} UnassignedUnchanged(params: Params, events: seq<Event>, name: string)
    requires forall j | 0 <= j < |events| :: events[j].Assigned? ==> events[j].name != name
    ensures name in LastValues(params, events) <==> name in params
    ensures name in params ==> LastValues(params, events)[name] == params[name]
    decreases |events|
  {
    if events != [] {
      UnassignedUnchanged(if events[0].Assigned? then params[events[0].name := events[0].value] else params,
        events[1..], name);
    }
  }

  /** A JSON line gives one step; any other line one for an accepted start and one for an insert. */
  function StepsOfLine(reader: Reader, line: string): nat {
    if IsBlank(reader, line) then 0
    else if JsonOf(reader, line).Some? then 1
    else
      (if AcceptedStart(reader, line).Some? then 1 else 0)
      + (if ContainsText(line, "===== EF INSERT =====") then 1 else 0)
  }

  function StepsOfLines(reader: Reader, lines: seq<string>): nat {
    if lines == [] then 0 else StepsOfLine(reader, lines[0]) + StepsOfLines(reader, lines[1..])
  }

  /** How many events become steps. */
  function Weight(events: seq<Event>): nat {
    if events == [] then 0 else (if events[0].Assigned? then 0 else 1) + Weight(events[1..])
  }

  lemma {:induction false} WeightConcat(a: seq<Event>, b: seq<Event>)
    ensures Weight(a + b) == Weight(a) + Weight(b)
  {
    if a == [] {
      assert a + b == b;
    } else {
      assert (a + b)[1..] == a[1..] + b;
      WeightConcat(a[1..], b);
    }
  }

  lemma WeightOfLine(reader: Reader, line: string)
    ensures Weight(EventsOfLine(reader, line)) == StepsOfLine(reader, line)
  {
    hide ContainsText;
    var last := Inserts(line) + Results(reader, line);
    WeightConcat(Inserts(line), Results(reader, line));
    WeightConcat(Starts(reader, line), last);
    WeightConcat(Assignments(reader, line), Starts(reader, line) + last);
  }

  lemma {:induction false} WeightOfLines(reader: Reader, lines: seq<string>)
    ensures Weight(EventsOf(reader, lines)) == StepsOfLines(reader, lines)
  {
    hide EventsOfLine, StepsOfLine;
    if lines != [] {
      WeightOfLine(reader, lines[0]);
      WeightConcat(EventsOfLine(reader, lines[0]), EventsOf(reader, lines[1..]));
      WeightOfLines(reader, lines[1..]);
    }
  }

  lemma {:induction false} CountInOrder(events: seq<Event>)
    ensures |StartedMethods(events)| + |PlainSteps(events)| == Weight(events)
  {
    hide LastValues, SegmentLength;
    if events != [] { CountInOrder(events[1..]); }
  }

  lemma {:induction false} CountKinds(steps: seq<TraceStep>)
    ensures |steps| == |MethodsOf(steps)| + |OthersOf(steps)|
  {
    if steps != [] { CountKinds(steps[1..]); }
  }

  lemma StepCount(reader: Reader, lines: seq<string>)
    ensures |Steps(EventsOf(reader, lines))| == StepsOfLines(reader, lines)
  {
    hide *;
    var events := EventsOf(reader, lines);
    CountKinds(Steps(events));
    StepsInOrder(events);
    CountInOrder(events);
    WeightOfLines(reader, lines);
  }
}

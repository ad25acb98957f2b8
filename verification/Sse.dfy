/** The server-sent events parser, one character at a time, against the grammar of lines and frames. */
module Sse {
  import opened Text
  import opened Tokens

  datatype SseEvent = SseEvent(event: Option<string>, data: string, heartbeat: bool)

  datatype SseError = TooLarge | InvalidStream | Truncated

  // ---------- The grammar: lines, their fields, and frames ----------

  predicate Ends(c: char) { c == '\r' || c == '\n' }

  predicate OneLine(s: string) { forall k | 0 <= k < |s| :: !Ends(s[k]) }

  /** A finished line and the bytes charged for it: its own, and two for a CR or CRLF, one for an LF. */
  datatype Line = Line(content: string, cost: nat)

  function FirstEnd(text: string): (i: nat)
    ensures i <= |text| && OneLine(text[..i]) && (i < |text| ==> Ends(text[i]))
  {
    if text == "" then 0
    else if Ends(text[0]) then 0
    else
      var i := FirstEnd(text[1..]);
      assert text[..i + 1] == [text[0]] + text[1..][..i];
      i + 1
  }

  function WithoutLf(text: string): string { if text != "" && text[0] == '\n' then text[1..] else text }

  /** Lines end with CR, LF or CRLF; what follows the last ending is left over. */
  function Lines(text: string): (seq<Line>, string)
    decreases |text|
  {
    var i := FirstEnd(text);
    if i == |text| then ([], text)
    else
      var cr := text[i] == '\r';
      var (lines, rest) := Lines(if cr then WithoutLf(text[i + 1..]) else text[i + 1..]);
      ([Line(text[..i], Utf8Length(text[..i]) + if cr then 2 else 1)] + lines, rest)
  }

  datatype Field = Comment | Data(value: string) | Name(value: string) | Unsupported

  function Colon(line: string): (i: nat)
    ensures i <= |line|
    ensures i < |line| ==> line[i] == ':'
    ensures forall k | 0 <= k < i :: line[k] != ':'
  {
    if line == "" then 0 else if line[0] == ':' then 0 else 1 + Colon(line[1..])
  }

  /** What follows the colon, without one leading space. */
  function ValueOf(line: string): string {
    var i := Colon(line);
    if i == |line| then ""
    else
      var value := line[i + 1..];
      if value != "" && value[0] == ' ' then value[1..] else value
  }

  function FieldOf(line: string): Field {
    var name := line[..Colon(line)];
    if line != "" && line[0] == ':' then Comment
    else if name == "data" then Data(ValueOf(line))
    else if name == "event" && ValueOf(line) != "" then Name(ValueOf(line))
    else Unsupported
  }

  /** A line that says nothing but `name`, or `name:` and a value, set off by one space or by none. */
  ghost predicate Spells(line: string, name: string, value: string) {
    || (value == "" && line == name)
    || (line == name + ":" + value && !(value != "" && value[0] == ' '))
    || line == name + ": " + value
  }

  lemma {:induction false} ColonAt(name: string, rest: string)
    requires ':' !in name
    ensures Colon(name + ":" + rest) == |name|
  {
    var line := name + ":" + rest;
    if name != "" {
      ColonAt(name[1..], rest);
      assert line[1..] == name[1..] + ":" + rest;
    }
  }

  lemma ColonNowhere(name: string)
    requires ':' !in name
    ensures Colon(name) == |name|
  {
  }

  lemma ValueAt(name: string, value: string)
    requires ':' !in name
    ensures name[..Colon(name)] == name && ValueOf(name) == ""
    ensures var line := name + ": " + value; line[..Colon(line)] == name && ValueOf(line) == value
    ensures var line := name + ":" + value;
            line[..Colon(line)] == name && (!(value != "" && value[0] == ' ') ==> ValueOf(line) == value)
  {
    ColonNowhere(name);
    ColonAt(name, value);
    ColonAt(name, " " + value);
    assert name + ": " + value == name + ":" + (" " + value);
    assert (name + ":" + value)[|name| + 1..] == value;
    assert (name + ": " + value)[|name| + 1..] == " " + value;
    hide Colon;
  }

  lemma SpelledSo(line: string, name: string, value: string)
    requires line[..Colon(line)] == name && ValueOf(line) == value
    ensures Spells(line, name, value)
  {
    var i := Colon(line);
    hide Colon;
    if i < |line| {
      var after := line[i + 1..];
      assert line == name + ":" + after;
      if after != "" && after[0] == ' ' {
        assert after == " " + value;
        assert line == name + ": " + value;
      }
    } else {
      assert line[..i] == line;
    }
  }

  /** How a line with a given field is spelled. */
  lemma SpelledExactly(line: string, name: string, value: string)
    requires ':' !in name
    ensures Spells(line, name, value) <==> line[..Colon(line)] == name && ValueOf(line) == value
  {
    ValueAt(name, value);
    if line[..Colon(line)] == name && ValueOf(line) == value {
      SpelledSo(line, name, value);
    }
    hide Colon, ValueOf;
  }

  /** The lines the parser understands: comments, data, and event names that are not empty. */
  lemma FieldExactly(line: string, value: string)
    ensures FieldOf(line) == Comment <==> |line| > 0 && line[0] == ':'
    ensures FieldOf(line) == Data(value) <==> Spells(line, "data", value)
    ensures FieldOf(line) == Name(value) <==> value != "" && Spells(line, "event", value)
  {
    SpelledExactly(line, "data", value);
    SpelledExactly(line, "event", value);
    assert |line| > 0 && line[0] == ':' ==> Colon(line) == 0;
  }

  function DataOf(lines: seq<string>): seq<string> {
    if lines == [] then []
    else (if FieldOf(lines[0]).Data? then [FieldOf(lines[0]).value] else []) + DataOf(lines[1..])
  }

  function NamesOf(lines: seq<string>): seq<string> {
    if lines == [] then []
    else (if FieldOf(lines[0]).Name? then [FieldOf(lines[0]).value] else []) + NamesOf(lines[1..])
  }

  /** Supported fields only, and at most one event name. */
  ghost predicate LinesOk(lines: seq<string>) {
    && (forall l | l in lines :: l != "" && FieldOf(l) != Unsupported)
    && |NamesOf(lines)| <= 1
  }

  /** A named frame must carry data. */
  ghost predicate FrameOk(lines: seq<string>) {
    LinesOk(lines) && (NamesOf(lines) != [] ==> DataOf(lines) != [])
  }

  function NameIn(lines: seq<string>): Option<string> { if NamesOf(lines) == [] then None else Some(NamesOf(lines)[0]) }

  /** Nothing for a bare blank line; otherwise data lines joined by newlines, or a heartbeat of comments alone. */
  function FrameEvents(lines: seq<string>): seq<SseEvent> {
    if lines == [] then []
    else [SseEvent(NameIn(lines), JoinLines(DataOf(lines)), DataOf(lines) == [] && NamesOf(lines) == [])]
  }

  datatype Frame = Frame(lines: seq<string>, cost: nat)

  /** A blank line ends a frame; what follows the last blank line is left over. */
  function Frames(lines: seq<Line>): (seq<Frame>, seq<Line>) {
    if lines == [] then ([], [])
    else
      var (frames, left) := Frames(lines[1..]);
      if lines[0].content == "" then ([Frame([], lines[0].cost)] + frames, left)
      else if frames == [] then ([], [lines[0]] + left)
      else ([Frame([lines[0].content] + frames[0].lines, lines[0].cost + frames[0].cost)] + frames[1..], left)
  }

  function EventsOf(frames: seq<Frame>): seq<SseEvent> {
    if frames == [] then [] else FrameEvents(frames[0].lines) + EventsOf(frames[1..])
  }

  /** Every frame is well formed and within the bound, and nothing is left over. */
  ghost predicate Accepts(text: string, max: nat) {
    var (lines, rest) := Lines(text);
    var (frames, left) := Frames(lines);
    rest == "" && left == [] && forall f | f in frames :: FrameOk(f.lines) && f.cost <= max
  }

  function Meaning(text: string): seq<SseEvent> { EventsOf(Frames(Lines(text).0).0) }

  // ---------- The machine ----------

  datatype State = State(line: string, data: seq<string>, event: Option<string>, frameBytes: nat, frameSeen: bool, skipLf: bool)

  const START := State("", [], None, 0, false, false)

  predicate Clean(s: State) { s.line == "" && !s.frameSeen && s.data == [] && s.event.None? }

  /** Handling one finished line. */
  function TakeLine(s: State): Result<(State, Option<SseEvent>), SseError> {
    if s.line == "" then
      if s.frameSeen && s.event.Some? && s.data == [] then Err(InvalidStream)
      else
        var e := if s.frameSeen then Some(SseEvent(s.event, JoinLines(s.data), s.data == [] && s.event.None?)) else None;
        Ok((State("", [], None, 0, false, s.skipLf), e))
    else
      var seen := s.(line := "", frameSeen := true);
      match FieldOf(s.line)
      case Comment => Ok((seen, None))
      case Data(value) => Ok((seen.(data := s.data + [value]), None))
      case Name(value) => if s.event.Some? then Err(InvalidStream) else Ok((seen.(event := Some(value)), None))
      case Unsupported => Err(InvalidStream)
  }

  function Cost(c: char): nat { if c == '\r' then 2 else Utf8Width(c) }

  /** One character: the next state and the frame it completes, or the failure it causes. */
  function Consume(s: State, c: char, max: nat): Result<(State, Option<SseEvent>), SseError> {
    if s.skipLf && c == '\n' then Ok((s.(skipLf := false), None))
    else if s.frameBytes + Cost(c) > max then Err(TooLarge)
    else
      var charged := s.(skipLf := c == '\r', frameBytes := s.frameBytes + Cost(c));
      if Ends(c) then TakeLine(charged) else Ok((charged.(line := s.line + [c]), None))
  }

  /** The events a text yields, and how it ends. */
  function Run(s: State, text: string, max: nat): (seq<SseEvent>, Option<SseError>)
    decreases |text|
  {
    if text == "" then ([], if Clean(s) then None else Some(Truncated))
    else
      match Consume(s, text[0], max)
      case Err(e) => ([], Some(e))
      case Ok((next, out)) =>
        var (events, end) := Run(next, text[1..], max);
        ((if out.Some? then [out.value] else []) + events, end)
  }

  /** The object that does it, fed chunk by chunk. */
  class SseParser {
    const max: nat
    var line: seq<char>
    var data: seq<string>
    var event: Option<string>
    var frameBytes: nat
    var frameSeen: bool
    var skipLf: bool

    function Now(): State
      reads this
    {
      State(line, data, event, frameBytes, frameSeen, skipLf)
    }

    constructor (max: nat)
      ensures Now() == START && this.max == max
    {
      this.max := max;
      line, data, event := "", [], None;
      frameBytes, frameSeen, skipLf := 0, false, false;
    }

    method Finish() returns (r: Result<Option<SseEvent>, SseError>)
      modifies this
      ensures match TakeLine(old(Now())) case Err(e) => r == Err(e) case Ok((s, out)) => r == Ok(out) && Now() == s
    {
      var current := line;
      line := "";
      if current == "" {
        var result := None;
        if frameSeen {
          if event.Some? && data == [] {
            return Err(InvalidStream);
          }
          result := Some(SseEvent(event, JoinLines(data), data == [] && event.None?));
        }
        data, event := [], None;
        frameBytes, frameSeen := 0, false;
        return Ok(result);
      }
      frameSeen := true;
      match FieldOf(current) {
        case Comment =>
        case Data(value) =>
          data := data + [value];
        case Name(value) =>
          if event.Some? {
            return Err(InvalidStream);
          }
          event := Some(value);
        case Unsupported =>
          return Err(InvalidStream);
      }
      return Ok(None);
    }

    method Take(c: char) returns (r: Result<Option<SseEvent>, SseError>)
      modifies this
      ensures match Consume(old(Now()), c, max) case Err(e) => r == Err(e) case Ok((s, out)) => r == Ok(out) && Now() == s
    {
      hide TakeLine, Utf8Width;
      if skipLf {
        skipLf := false;
        if c == '\n' {
          return Ok(None);
        }
      }
      frameBytes := frameBytes + if c == '\r' then 2 else Utf8Width(c);
      if frameBytes > max {
        return Err(TooLarge);
      }
      if c == '\r' || c == '\n' {
        skipLf := c == '\r';
        r := Finish();
      } else {
        line := line + [c];
        r := Ok(None);
      }
    }
  }

  /** Parses chunks as they arrive: the same events and the same ending however the text was cut. */
  method ParseSse(chunks: seq<string>, max: nat) returns (events: seq<SseEvent>, end: Option<SseError>)
    ensures (events, end) == Run(START, Join(chunks), max)
  {
    hide Consume, Clean, Run, Join, Prepend;
    var parser := new SseParser(max);
    events := [];
    var i := 0;
    Unprefixed(Run(START, Join(chunks), max));
    assert chunks[0..] == chunks;
    while i < |chunks|
      invariant 0 <= i <= |chunks| && fresh(parser) && parser.max == max
      invariant Prepend(events, Run(parser.Now(), Join(chunks[i..]), max)) == Run(START, Join(chunks), max)
    {
      var chunk := chunks[i];
      JoinAll(chunks, i);
      var k := 0;
      assert chunk[0..] == chunk;
      while k < |chunk|
        invariant 0 <= k <= |chunk| && fresh(parser) && parser.max == max
        invariant Prepend(events, Run(parser.Now(), chunk[k..] + Join(chunks[i + 1..]), max)) == Run(START, Join(chunks), max)
      {
        var rest := chunk[k..] + Join(chunks[i + 1..]);
        assert rest[0] == chunk[k] && rest[1..] == chunk[k + 1..] + Join(chunks[i + 1..]);
        RunStep(parser.Now(), rest, max, events);
        var r := parser.Take(chunk[k]);
        if r.Err? {
          return events, Some(r.error);
        }
        assert events + [] == events;
        if r.value.Some? {
          events := events + [r.value.value];
        }
        k := k + 1;
      }
      assert chunk[k..] + Join(chunks[i + 1..]) == Join(chunks[i + 1..]);
      i := i + 1;
    }
    JoinAll(chunks, i);
    RunEnds(parser.Now(), Join(chunks[i..]), max, events);
    return events, if Clean(parser.Now()) then None else Some(Truncated);
  }

  function Prepend(events: seq<SseEvent>, r: (seq<SseEvent>, Option<SseError>)): (seq<SseEvent>, Option<SseError>) {
    (events + r.0, r.1)
  }

  lemma JoinAll(chunks: seq<string>, i: nat)
    requires i <= |chunks|
    ensures i < |chunks| ==> Join(chunks[i..]) == chunks[i] + Join(chunks[i + 1..])
    ensures i == |chunks| ==> Join(chunks[i..]) == ""
  {
    if i < |chunks| {
      assert chunks[i..][1..] == chunks[i + 1..];
    }
  }

  lemma Unprefixed(r: (seq<SseEvent>, Option<SseError>))
    ensures Prepend([], r) == r
  {
    assert [] + r.0 == r.0;
  }

  lemma RunStep(s: State, text: string, max: nat, events: seq<SseEvent>)
    requires text != ""
    ensures match Consume(s, text[0], max)
            case Err(e) => Prepend(events, Run(s, text, max)) == (events, Some(e))
            case Ok((next, out)) =>
              Prepend(events, Run(s, text, max))
              == Prepend(events + (if out.Some? then [out.value] else []), Run(next, text[1..], max))
  {
    hide Consume;
    match Consume(s, text[0], max)
    case Err(e) => assert events + [] == events;
    case Ok((next, out)) =>
      Associate(events, if out.Some? then [out.value] else [], Run(next, text[1..], max).0);
  }

  lemma RunEnds(s: State, text: string, max: nat, events: seq<SseEvent>)
    requires text == ""
    ensures Prepend(events, Run(s, text, max)) == (events, if Clean(s) then None else Some(Truncated))
  {
    assert events + [] == events;
  }
}

/** The character machine accepts exactly the grammar, and reads back what the gateway encodes. */
module SseGrammar {
  import opened Text
  import opened Tokens
  import opened Sse

  /** The machine between two lines of a frame whose finished lines are `done`, after `bytes` charged bytes. */
  function Between(done: seq<string>, bytes: nat): State {
    State("", DataOf(done), NameIn(done), bytes, done != [], false)
  }

  lemma {:induction false} FieldsAppend(a: seq<string>, b: seq<string>)
    ensures DataOf(a + b) == DataOf(a) + DataOf(b)
    ensures NamesOf(a + b) == NamesOf(a) + NamesOf(b)
  {
    hide FieldOf;
    if a == [] {
      assert a + b == b;
    } else {
      assert (a + b)[1..] == a[1..] + b && (a + b)[0] == a[0];
      FieldsAppend(a[1..], b);
      var f := FieldOf(a[0]);
      Associate(if f.Data? then [f.value] else [], DataOf(a[1..]), DataOf(b));
      Associate(if f.Name? then [f.value] else [], NamesOf(a[1..]), NamesOf(b));
    }
  }

  lemma OneMore(done: seq<string>, line: string)
    ensures DataOf(done + [line]) == DataOf(done) + (if FieldOf(line).Data? then [FieldOf(line).value] else [])
    ensures NamesOf(done + [line]) == NamesOf(done) + (if FieldOf(line).Name? then [FieldOf(line).value] else [])
    ensures forall l | l in done :: l in done + [line]
    ensures line in done + [line]
  {
    hide FieldOf;
    FieldsAppend(done, [line]);
    assert [line][1..] == [];
    assert DataOf([line]) == (if FieldOf(line).Data? then [FieldOf(line).value] else []) + DataOf([]);
    assert NamesOf([line]) == (if FieldOf(line).Name? then [FieldOf(line).value] else []) + NamesOf([]);
  }

  /** A finished line extends the frame, or fails exactly when the frame would no longer be well formed. */
  lemma LineTaken(done: seq<string>, bytes: nat, content: string, cr: bool)
    requires LinesOk(done) && content != ""
    ensures var s := Between(done, bytes).(line := content, skipLf := cr);
            if LinesOk(done + [content]) then TakeLine(s) == Ok((Between(done + [content], bytes).(skipLf := cr), None))
            else TakeLine(s).Err?
  {
    OneMore(done, content);
    hide FieldOf, DataOf, NamesOf;
    var s := Between(done, bytes).(line := content, skipLf := cr);
    assert DataOf(done) + [] == DataOf(done) && NamesOf(done) + [] == NamesOf(done);
    if FieldOf(content) == Unsupported || (FieldOf(content).Name? && NamesOf(done) != []) {
      assert !LinesOk(done + [content]);
      assert TakeLine(s).Err?;
    } else {
      assert LinesOk(done + [content]);
      assert NamesOf(done + [content]) == if FieldOf(content).Name? then [FieldOf(content).value] else NamesOf(done);
    }
  }

  /** A blank line yields the frame's event and starts afresh. */
  lemma BlankTaken(done: seq<string>, bytes: nat, cr: bool)
    requires LinesOk(done)
    ensures var s := Between(done, bytes).(skipLf := cr);
            if FrameOk(done) then TakeLine(s) == Ok((START.(skipLf := cr), if done == [] then None else Some(FrameEvents(done)[0])))
            else TakeLine(s).Err?
  {
    hide FieldOf;
    if done == [] {
      assert NamesOf(done) == [];
    }
  }

  // ---------- Characters to lines ----------

  /** The characters of a line are collected, and charged. */
  lemma {:induction false} Collects(s: State, content: string, rest: string, max: nat)
    requires OneLine(content) && !s.skipLf
    ensures Run(s, content + rest, max)
            == if content != "" && s.frameBytes + Utf8Length(content) > max then ([], Some(TooLarge))
               else Run(s.(line := s.line + content, frameBytes := s.frameBytes + Utf8Length(content)), rest, max)
    decreases |content|
  {
    hide TakeLine, Utf8Width;
    if content == "" {
      assert content + rest == rest && s.line + content == s.line;
    } else {
      var text := content + rest;
      var c := content[0];
      assert text[0] == c && text[1..] == content[1..] + rest;
      assert !Ends(c);
      WidthPositive(content[1..]);
      var next := s.(line := s.line + [c], frameBytes := s.frameBytes + Utf8Width(c));
      assert s.line + content == next.line + content[1..];
      Collects(next, content[1..], rest, max);
      var r := Run(next, text[1..], max);
      assert [] + r.0 == r.0;
    }
  }

  lemma {:induction false} WidthPositive(s: string)
    ensures Utf8Length(s) >= |s|
  {
    if s != "" {
      WidthPositive(s[1..]);
    }
  }

  /** After a CR the machine skips one LF; otherwise the flag means nothing. */
  lemma SkipsLf(s: State, text: string, max: nat)
    requires !s.skipLf
    ensures Run(s.(skipLf := true), text, max) == Run(s, WithoutLf(text), max)
  {
    hide TakeLine;
    if text != "" {
      var r := Run(s, text[1..], max);
      assert [] + r.0 == r.0;
    }
  }

  /** The machine over one whole line: collect, charge, take. */
  lemma WholeLine(s: State, content: string, cr: bool, rest: string, max: nat)
    requires OneLine(content) && !s.skipLf && s.line == ""
    ensures var text := content + [if cr then '\r' else '\n'] + rest;
            var bytes := s.frameBytes + Utf8Length(content) + (if cr then 2 else 1);
            var taken := TakeLine(s.(line := content, frameBytes := bytes, skipLf := cr));
            Run(s, text, max)
            == if bytes > max then ([], Some(TooLarge))
               else match taken
                    case Err(e) => ([], Some(e))
                    case Ok((next, out)) =>
                      Prepend(if out.Some? then [out.value] else [], Run(next.(skipLf := false), if cr then WithoutLf(rest) else rest, max))
  {
    hide TakeLine, Run, Utf8Length;
    var end := if cr then '\r' else '\n';
    assert content + [end] + rest == content + ([end] + rest);
    Collects(s, content, [end] + rest, max);
    assert s.line + content == content;
    WidthPositive(content);
    var at := s.(line := content, frameBytes := s.frameBytes + Utf8Length(content));
    LineEnd(at, cr, rest, max);
  }

  lemma LineEnd(at: State, cr: bool, rest: string, max: nat)
    requires !at.skipLf
    ensures var bytes := at.frameBytes + (if cr then 2 else 1);
            var taken := TakeLine(at.(frameBytes := bytes, skipLf := cr));
            Run(at, [if cr then '\r' else '\n'] + rest, max)
            == if bytes > max then ([], Some(TooLarge))
               else match taken
                    case Err(e) => ([], Some(e))
                    case Ok((next, out)) =>
                      Prepend(if out.Some? then [out.value] else [], Run(next.(skipLf := false), if cr then WithoutLf(rest) else rest, max))
  {
    var bytes := at.frameBytes + (if cr then 2 else 1);
    var charged := at.(frameBytes := bytes, skipLf := cr);
    TakeKeepsFlag(charged);
    hide TakeLine;
    var text := [if cr then '\r' else '\n'] + rest;
    assert text[1..] == rest;
    if bytes <= max && TakeLine(charged).Ok? {
      var next := TakeLine(charged).value.0;
      if cr {
        SkipsLf(next.(skipLf := false), rest, max);
        assert next.(skipLf := false).(skipLf := true) == next;
      } else {
        assert next.(skipLf := false) == next;
      }
    }
  }

  lemma TakeKeepsFlag(s: State)
    ensures TakeLine(s).Ok? ==> TakeLine(s).value.0.skipLf == s.skipLf
  {
    hide FieldOf;
  }

  // ---------- Lines to frames ----------

  /** The rest of a run that is inside a frame whose finished lines are `done`. */
  ghost predicate AcceptsFrom(done: seq<string>, bytes: nat, text: string, max: nat) {
    var (lines, rest) := Lines(text);
    var (frames, left) := Frames(lines);
    && rest == "" && left == []
    && if frames == [] then done == []
       else
         && FrameOk(done + frames[0].lines) && bytes + frames[0].cost <= max
         && forall f | f in frames[1..] :: FrameOk(f.lines) && f.cost <= max
  }

  function MeaningFrom(done: seq<string>, text: string): seq<SseEvent> {
    var frames := Frames(Lines(text).0).0;
    if frames == [] then [] else FrameEvents(done + frames[0].lines) + EventsOf(frames[1..])
  }

  lemma FromStart(text: string, max: nat)
    ensures AcceptsFrom([], 0, text, max) <==> Accepts(text, max)
    ensures MeaningFrom([], text) == Meaning(text)
  {
    hide FrameOk, Lines, Frames, FrameEvents;
    var frames := Frames(Lines(text).0).0;
    if frames != [] {
      assert [] + frames[0].lines == frames[0].lines;
      assert forall f :: f in frames <==> f == frames[0] || f in frames[1..];
    }
  }

  /** What the first finished line of a text makes of the grammar. */
  lemma GrammarStep(done: seq<string>, bytes: nat, content: string, cr: bool, rest: string, max: nat)
    requires OneLine(content)
    ensures var text := content + [if cr then '\r' else '\n'] + rest;
            var more := if cr then WithoutLf(rest) else rest;
            var cost := Utf8Length(content) + (if cr then 2 else 1);
            if content == "" then
              && (AcceptsFrom(done, bytes, text, max) <==> FrameOk(done) && bytes + cost <= max && AcceptsFrom([], 0, more, max))
              && MeaningFrom(done, text) == FrameEvents(done) + MeaningFrom([], more)
            else
              && (AcceptsFrom(done, bytes, text, max) <==> AcceptsFrom(done + [content], bytes + cost, more, max) && more != "")
              && (Frames(Lines(more).0).0 != [] ==> MeaningFrom(done, text) == MeaningFrom(done + [content], more))
  {
    hide FrameOk, FrameEvents, Utf8Length, Lines, Frames;
    var text := content + [if cr then '\r' else '\n'] + rest;
    var more := if cr then WithoutLf(rest) else rest;
    var cost := Utf8Length(content) + (if cr then 2 else 1);
    FirstLine(content, cr, rest);
    var (lines, end) := Lines(more);
    var (frames, left) := Frames(lines);
    FirstFrame(Line(content, cost), lines);
    NothingLeft(more);
    if content == "" {
      assert done + [] == done;
      var all := [Frame([], cost)] + frames;
      assert all[1..] == frames;
      if frames != [] {
        assert [] + frames[0].lines == frames[0].lines;
        assert forall f :: f in frames <==> f == frames[0] || f in frames[1..];
      }
    } else if frames != [] {
      var joined := [Frame([content] + frames[0].lines, cost + frames[0].cost)] + frames[1..];
      assert joined[1..] == frames[1..];
      assert done + ([content] + frames[0].lines) == done + [content] + frames[0].lines;
    }
  }

  lemma FirstLine(content: string, cr: bool, rest: string)
    requires OneLine(content)
    ensures var text := content + [if cr then '\r' else '\n'] + rest;
            var more := if cr then WithoutLf(rest) else rest;
            Lines(text) == ([Line(content, Utf8Length(content) + if cr then 2 else 1)] + Lines(more).0, Lines(more).1)
  {
    hide FirstEnd, Utf8Length, OneLine, WithoutLf;
    var text := content + [if cr then '\r' else '\n'] + rest;
    assert text[..|content|] == content && text[|content| + 1..] == rest && text[|content|] == if cr then '\r' else '\n';
    FirstEndIs(text, |content|);
  }

  lemma {:induction false} FirstEndIs(text: string, n: nat)
    requires n < |text| && OneLine(text[..n]) && Ends(text[n])
    ensures FirstEnd(text) == n
  {
    if n > 0 {
      assert text[0] == text[..n][0] && text[1..][..n - 1] == text[..n][1..];
      FirstEndIs(text[1..], n - 1);
    }
  }

  lemma FirstFrame(first: Line, lines: seq<Line>)
    ensures var (frames, left) := Frames(lines);
            Frames([first] + lines)
            == if first.content == "" then ([Frame([], first.cost)] + frames, left)
               else if frames == [] then ([], [first] + left)
               else ([Frame([first.content] + frames[0].lines, first.cost + frames[0].cost)] + frames[1..], left)
  {
    assert ([first] + lines)[1..] == lines;
  }

  /** Only the empty text has no lines and nothing left over. */
  lemma NothingLeft(text: string)
    ensures Lines(text).1 == "" && Lines(text).0 == [] <==> text == ""
    ensures Frames(Lines(text).0).0 == [] && Frames(Lines(text).0).1 == [] <==> Lines(text).0 == []
  {
    hide Utf8Length;
    var lines := Lines(text).0;
    if lines != [] {
      FramesNonempty(lines);
    }
  }

  lemma FramesNonempty(lines: seq<Line>)
    requires lines != []
    ensures Frames(lines).0 != [] || Frames(lines).1 != []
  {
  }

  // ---------- The machine is the grammar ----------

  lemma {:induction false} RunExact(done: seq<string>, bytes: nat, text: string, max: nat)
    requires LinesOk(done)
    ensures Run(Between(done, bytes), text, max).1.None? <==> AcceptsFrom(done, bytes, text, max)
    ensures AcceptsFrom(done, bytes, text, max) ==> Run(Between(done, bytes), text, max).0 == MeaningFrom(done, text)
    decreases |text|
  {
    hide Utf8Length, TakeLine, FrameOk, LinesOk, Run, AcceptsFrom, MeaningFrom, FrameEvents, Lines, Frames, FirstEnd;
    var i := FirstEnd(text);
    var content := text[..i];
    var s := Between(done, bytes);
    if i == |text| {
      assert content + "" == text && content == text;
      Collects(s, content, "", max);
      NoEnd(done, bytes, text, max);
    } else {
      var cr, rest := text[i] == '\r', text[i + 1..];
      var more := if cr then WithoutLf(rest) else rest;
      assert text == content + [text[i]] + rest;
      WholeLine(s, content, cr, rest, max);
      GrammarStep(done, bytes, content, cr, rest, max);
      var total := bytes + Utf8Length(content) + (if cr then 2 else 1);
      if content == "" {
        BlankTaken(done, total, cr);
        OneEvent(done);
        RunExact([], 0, more, max);
        assert Between([], 0) == START;
        var r := Run(START, more, max);
        assert [] + r.0 == r.0 && [] + MeaningFrom([], more) == MeaningFrom([], more);
      } else {
        LineTaken(done, total, content, cr);
        if AcceptsFrom(done + [content], total, more, max) {
          NeedsFrame(done + [content], total, more, max);
        }
        if LinesOk(done + [content]) {
          RunExact(done + [content], total, more, max);
          var r := Run(Between(done + [content], total), more, max);
          assert [] + r.0 == r.0;
        }
      }
    }
  }

  lemma OneEvent(done: seq<string>)
    ensures FrameEvents(done) == if done == [] then [] else [FrameEvents(done)[0]]
    ensures FrameOk(done) ==> LinesOk(done)
    ensures LinesOk([])
  {
    assert NamesOf([]) == [];
    hide FieldOf;
  }

  /** A frame that has begun must still end, within the bound and well formed so far. */
  lemma NeedsFrame(done: seq<string>, bytes: nat, text: string, max: nat)
    requires AcceptsFrom(done, bytes, text, max) && done != []
    ensures bytes <= max && LinesOk(done) && Frames(Lines(text).0).0 != [] && text != ""
  {
    assert Frames(Lines("").0).0 == [];
    hide FieldOf, Lines, Frames;
    var lines := Frames(Lines(text).0).0[0].lines;
    FieldsAppend(done, lines);
    assert forall l | l in done :: l in done + lines;
  }

  /** A text without any line ending is accepted only when nothing at all was pending. */
  lemma NoEnd(done: seq<string>, bytes: nat, text: string, max: nat)
    requires FirstEnd(text) == |text|
    ensures AcceptsFrom(done, bytes, text, max) <==> text == "" && done == []
    ensures text == "" ==> MeaningFrom(done, text) == []
    ensures Run(Between(done, bytes).(line := text, frameBytes := bytes + Utf8Length(text)), "", max)
            == ([], if text == "" && done == [] then None else Some(Truncated))
    ensures "" + text == text
  {
    hide Utf8Length, FrameOk, FrameEvents;
    assert Lines(text) == ([], text) && Frames([]) == ([], []);
  }

  /** The machine accepts a text exactly when the grammar does, and yields exactly what the grammar means. */
  lemma ParseExact(text: string, max: nat)
    ensures Run(START, text, max).1.None? <==> Accepts(text, max)
    ensures Accepts(text, max) ==> Run(START, text, max).0 == Meaning(text)
  {
    hide LinesOk, Run, AcceptsFrom, Accepts, Meaning, MeaningFrom;
    OneEvent([]);
    assert Between([], 0) == START;
    RunExact([], 0, text, max);
    FromStart(text, max);
  }

  // ---------- The bound ----------

  function DataBytes(data: seq<string>): nat {
    if data == [] then 0 else Utf8Length(data[0]) + 1 + DataBytes(data[1..])
  }

  function NameBytes(event: Option<string>): nat { if event.None? then 0 else Utf8Length(event.value) + 1 }

  /** What a state holds has been charged. */
  predicate Charged(s: State, max: nat) {
    Utf8Length(s.line) + DataBytes(s.data) + NameBytes(s.event) <= s.frameBytes <= max
  }

  predicate Small(e: SseEvent, max: nat) { Utf8Length(e.data) + NameBytes(e.event) <= max }

  lemma {:induction false} DataBytesAppend(a: seq<string>, last: string)
    ensures DataBytes(a + [last]) == DataBytes(a) + Utf8Length(last) + 1
  {
    hide Utf8Length;
    if a == [] {
      assert a + [last] == [last] && [last][1..] == [];
    } else {
      assert (a + [last])[1..] == a[1..] + [last] && (a + [last])[0] == a[0];
      DataBytesAppend(a[1..], last);
    }
  }

  lemma {:induction false} JoinedBytes(parts: seq<string>)
    ensures Utf8Length(JoinLines(parts)) <= DataBytes(parts)
  {
    hide Utf8Length;
    assert Utf8Length("") == 0 by { NoBytes(); }
    if |parts| == 1 {
      assert parts[1..] == [];
    } else if parts != [] {
      JoinedBytes(parts[1..]);
      Utf8LengthAppend(parts[0] + "\n", JoinLines(parts[1..]));
      Utf8LengthAppend(parts[0], "\n");
      NoBytes();
    }
  }

  lemma ValueBytes(line: string)
    requires line != ""
    ensures Utf8Length(ValueOf(line)) <= Utf8Length(line)
    ensures Colon(line) > 0 && ValueOf(line) != "" ==> Utf8Length(ValueOf(line)) + 1 <= Utf8Length(line)
  {
    hide Utf8Length, Utf8Width;
    var value := ValueOf(line);
    var head := line[..|line| - |value|];
    assert Utf8Length("") == 0 by { NoBytes(); }
    assert line == head + value;
    Utf8LengthAppend(head, value);
    WidthPositive(head);
  }

  lemma FieldBytes(line: string)
    requires line != ""
    ensures FieldOf(line).Data? ==> Utf8Length(FieldOf(line).value) + 1 <= Utf8Length(line)
    ensures FieldOf(line).Name? ==> Utf8Length(FieldOf(line).value) + 1 <= Utf8Length(line)
  {
    hide Utf8Length, ValueOf;
    ValueBytes(line);
    WidthPositive(line);
    assert Utf8Length("") == 0 by { NoBytes(); }
  }

  lemma TakeCharged(s: State, max: nat)
    requires Charged(s, max)
    ensures TakeLine(s).Ok? ==>
              && Charged(TakeLine(s).value.0, max)
              && (TakeLine(s).value.1.Some? ==> Small(TakeLine(s).value.1.value, max))
  {
    assert Utf8Length("") == 0 by { NoBytes(); }
    assert DataBytes([]) == 0;
    hide Utf8Length, FieldOf, JoinLines;
    JoinedBytes(s.data);
    if s.line != "" {
      FieldBytes(s.line);
      if FieldOf(s.line).Data? {
        DataBytesAppend(s.data, FieldOf(s.line).value);
      }
      hide DataBytes;
    }
  }

  lemma ConsumeCharged(s: State, c: char, max: nat)
    requires Charged(s, max)
    ensures Consume(s, c, max).Ok? ==>
              && Charged(Consume(s, c, max).value.0, max)
              && (Consume(s, c, max).value.1.Some? ==> Small(Consume(s, c, max).value.1.value, max))
  {
    hide Utf8Length, DataBytes, NameBytes, TakeLine, Small, Utf8Width;
    if s.frameBytes + Cost(c) <= max && !(s.skipLf && c == '\n') {
      var charged := s.(skipLf := c == '\r', frameBytes := s.frameBytes + Cost(c));
      TakeCharged(charged, max);
      Utf8LengthAppend(s.line, [c]);
      OneChar(c);
    }
  }

  lemma OneChar(c: char)
    ensures Utf8Length([c]) == Utf8Width(c)
  {
    assert [c][1..] == "";
  }

  lemma {:induction false} ChargedYields(s: State, text: string, max: nat)
    requires Charged(s, max)
    ensures forall e | e in Run(s, text, max).0 :: Small(e, max)
    decreases |text|
  {
    hide Charged, Consume, Small;
    if text != "" {
      ConsumeCharged(s, text[0], max);
      if Consume(s, text[0], max).Ok? {
        ChargedYields(Consume(s, text[0], max).value.0, text[1..], max);
      }
    }
  }

  lemma StartCharged(max: nat)
    ensures Charged(START, max)
  {
    assert Utf8Length("") == 0 && DataBytes([]) == 0;
  }

  /** No event is ever yielded beyond the bound, whether or not the run over a text ends well. */
  lemma YieldedBounded(text: string, max: nat)
    ensures forall e | e in Run(START, text, max).0 ::
              Utf8Length(e.data) + (if e.event.Some? then Utf8Length(e.event.value) + 1 else 0) <= max
  {
    hide Charged, Utf8Length;
    StartCharged(max);
    ChargedYields(START, text, max);
    assert forall e | e in Run(START, text, max).0 :: Small(e, max);
  }

  // ---------- Reading back what was encoded ----------

  /** One event as the gateway writes it; serialized JSON never contains a line ending. */
  datatype Encoded = Encoded(event: Option<string>, data: string) {
    predicate Ok() { OneLine(data) && (event.Some? ==> event.value != "" && OneLine(event.value)) }
  }

  function Encode(e: Encoded): string {
    (if e.event.Some? then "event: " + e.event.value + "\n" else "") + ("data: " + e.data + "\n\n")
  }

  function EncodeAll(all: seq<Encoded>): string {
    if all == [] then "" else Encode(all[0]) + EncodeAll(all[1..])
  }

  function Decoded(all: seq<Encoded>): seq<SseEvent> {
    if all == [] then [] else [SseEvent(all[0].event, all[0].data, false)] + Decoded(all[1..])
  }

  lemma DataField(data: string)
    ensures FieldOf("data: " + data) == Data(data)
  {
    var line := "data: " + data;
    ColonIs(line, 4);
    assert line[..4] == "data" && line[5..] == " " + data && (" " + data)[1..] == data;
  }

  lemma NameField(name: string)
    requires name != ""
    ensures FieldOf("event: " + name) == Name(name)
  {
    var line := "event: " + name;
    ColonIs(line, 5);
    assert line[..5] == "event" && line[6..] == " " + name && (" " + name)[1..] == name;
  }

  lemma ColonIs(line: string, n: nat)
    requires n < |line| && line[n] == ':' && forall k | 0 <= k < n :: line[k] != ':'
    ensures Colon(line) == n
  {
    assert line[Colon(line)] == ':' || Colon(line) == |line|;
  }

  /** The lines of one encoded event. */
  function EncodedLines(e: Encoded): seq<string> {
    (if e.event.Some? then ["event: " + e.event.value] else []) + ["data: " + e.data]
  }

  lemma EncodedFrame(e: Encoded)
    requires e.Ok()
    ensures FrameOk(EncodedLines(e)) && LinesOk([]) && LinesOk(EncodedLines(e)[..|EncodedLines(e)| - 1])
    ensures FrameEvents(EncodedLines(e)) == [SseEvent(e.event, e.data, false)]
  {
    var lines := EncodedLines(e);
    DataField(e.data);
    var data := "data: " + e.data;
    OneEvent([]);
    assert DataOf([]) == [] && NamesOf([]) == [];
    hide FieldOf, DataOf, NamesOf;
    if e.event.Some? {
      NameField(e.event.value);
      var name := "event: " + e.event.value;
      OneMore([], name);
      assert [] + [name] == [name];
      OneMore([name], data);
      assert lines == [name] + [data] && lines[..1] == [name];
    } else {
      OneMore([], data);
      assert [] + [data] == [data] && lines == [data] && lines[..0] == [];
    }
  }

  /** One encoded event, and the rest of the stream after it. */
  lemma ReadsOne(e: Encoded, rest: string, max: nat)
    requires e.Ok() && Utf8Length(Encode(e)) <= max
    ensures Accepts(Encode(e) + rest, max) <==> Accepts(rest, max)
    ensures Meaning(Encode(e) + rest) == [SseEvent(e.event, e.data, false)] + Meaning(rest)
  {
    hide Utf8Length, FrameOk, FrameEvents, AcceptsFrom, MeaningFrom, Accepts, Meaning, Lines, Frames, LinesOk;
    EncodedFrame(e);
    var text := Encode(e) + rest;
    var data := "data: " + e.data;
    var tail := data + "\n" + ("" + "\n" + rest);
    FromStart(text, max);
    FromStart(rest, max);
    OneLinePrefix("data: ", e.data);
    EncodeBytes(e);
    if e.event.Some? {
      var name := "event: " + e.event.value;
      OneLinePrefix("event: ", e.event.value);
      assert text == name + "\n" + tail;
      GrammarStep([], 0, name, false, tail, max);
      assert [] + [name] == [name] && [name] + [data] == EncodedLines(e);
      HasFrame([name], data, rest, max, Utf8Length(name) + 1);
    } else {
      assert text == tail;
      assert [] + [data] == EncodedLines(e);
      HasFrame([], data, rest, max, 0);
    }
  }

  lemma OneLinePrefix(prefix: string, s: string)
    requires OneLine(s) && (prefix == "data: " || prefix == "event: ")
    ensures OneLine(prefix + s)
  {
  }

  lemma EncodeBytes(e: Encoded)
    ensures Utf8Length(Encode(e))
            == (if e.event.Some? then Utf8Length("event: " + e.event.value) + 1 else 0) + Utf8Length("data: " + e.data) + 2
  {
    hide Utf8Length;
    NoBytes();
    var data := "data: " + e.data;
    assert data + "\n\n" == data + "\n" + "\n";
    Utf8LengthAppend(data + "\n", "\n");
    Utf8LengthAppend(data, "\n");
    if e.event.Some? {
      var name := "event: " + e.event.value;
      Utf8LengthAppend(name, "\n");
      Utf8LengthAppend(name + "\n", data + "\n\n");
    } else {
      assert Encode(e) == data + "\n\n";
    }
  }

  /** The data line and the blank line after it close the frame. */
  lemma HasFrame(done: seq<string>, data: string, rest: string, max: nat, bytes: nat)
    requires OneLine(data) && data != "" && FrameOk(done + [data]) && bytes + Utf8Length(data) + 2 <= max
    ensures var tail := data + "\n" + ("" + "\n" + rest);
            && (AcceptsFrom(done, bytes, tail, max) <==> AcceptsFrom([], 0, rest, max))
            && MeaningFrom(done, tail) == FrameEvents(done + [data]) + MeaningFrom([], rest)
            && Frames(Lines(tail).0).0 != []
  {
    hide Utf8Length, FrameOk, FrameEvents, AcceptsFrom, MeaningFrom, Lines, Frames;
    var blank := "" + "\n" + rest;
    GrammarStep(done, bytes, data, false, blank, max);
    GrammarStep(done + [data], bytes + Utf8Length(data) + 1, "", false, rest, max);
    NoBytes();
    FirstLine("", false, rest);
    FirstLine(data, false, blank);
    FirstFrame(Line("", 1), Lines(rest).0);
    FirstFrame(Line(data, Utf8Length(data) + 1), Lines(blank).0);
    assert Utf8Length("") + 1 == 1;
  }

  /** Any concatenation of encoded events reads back as those events in order. */
  lemma {:induction false} EncodeReadsBack(all: seq<Encoded>, max: nat)
    requires forall e | e in all :: e.Ok() && Utf8Length(Encode(e)) <= max
    ensures Run(START, EncodeAll(all), max) == (Decoded(all), None)
  {
    hide Run, Accepts, Meaning, Encode, Encoded.Ok, Utf8Length;
    AllReadBack(all, max);
    ParseExact(EncodeAll(all), max);
  }

  lemma {:induction false} AllReadBack(all: seq<Encoded>, max: nat)
    requires forall e | e in all :: e.Ok() && Utf8Length(Encode(e)) <= max
    ensures Accepts(EncodeAll(all), max) && Meaning(EncodeAll(all)) == Decoded(all)
  {
    hide Accepts, Meaning, Encode, Encoded.Ok, Utf8Length;
    if all == [] {
      NothingAccepted(max);
    } else {
      AllReadBack(all[1..], max);
      ReadsOne(all[0], EncodeAll(all[1..]), max);
    }
  }

  lemma NothingAccepted(max: nat)
    ensures Accepts("", max) && Meaning("") == []
  {
    assert Lines("") == ([], "") && Frames([]) == ([], []);
  }
}

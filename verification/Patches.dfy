/** The patch grammar: a parser that restores line by line, and why what it rebuilds parses the same way again. */
module Patches {
  import opened Text
  import opened Tokens

  datatype Operation = Add | Update | Delete

  // ---------- Lines ----------

  predicate HasChar(s: string, c: char) { c in s }

  predicate OneLine(s: string) { '\n' !in s && '\r' !in s && '\0' !in s }

  function Break(s: string): (i: nat)
    ensures i <= |s| && '\n' !in s[..i] && (i < |s| ==> s[i] == '\n')
  {
    if s == "" || s[0] == '\n' then 0
    else
      var i := Break(s[1..]);
      assert s[..i + 1] == [s[0]] + s[1..][..i];
      i + 1
  }

  /** Python's s.split("\n"). */
  function Split(s: string): (lines: seq<string>)
    ensures lines != []
    decreases |s|
  {
    var i := Break(s);
    if i == |s| then [s] else [s[..i]] + Split(s[i + 1..])
  }

  lemma {:induction false} SplitJoins(s: string)
    ensures JoinLines(Split(s)) == s
    decreases |s|
  {
    hide JoinLines, Break;
    var i := Break(s);
    if i < |s| {
      SplitJoins(s[i + 1..]);
      JoinFirst(s[..i], Split(s[i + 1..]));
      CutAt(s, i);
    } else {
      JoinOne(s);
    }
  }

  lemma CutAt(s: string, i: nat)
    requires i < |s| && s[i] == '\n'
    ensures s == s[..i] + "\n" + s[i + 1..]
  {
  }

  lemma JoinOne(s: string)
    ensures JoinLines([s]) == s
  {
  }

  lemma JoinFirst(line: string, lines: seq<string>)
    requires lines != []
    ensures JoinLines([line] + lines) == line + "\n" + JoinLines(lines)
  {
    assert ([line] + lines)[1..] == lines;
  }

  lemma {:induction false} JoinSplits(lines: seq<string>)
    requires lines != [] && forall l | l in lines :: '\n' !in l
    ensures Split(JoinLines(lines)) == lines
  {
    var s := JoinLines(lines);
    assert lines[0] in lines;
    if |lines| == 1 {
      BreakIs(s, |s|);
    } else {
      JoinSplits(lines[1..]);
      var rest := JoinLines(lines[1..]);
      assert s == lines[0] + "\n" + rest;
      hide JoinLines, Break;
      SplitsFirst(lines[0], rest);
      assert lines == [lines[0]] + lines[1..];
    }
  }

  lemma SplitsFirst(line: string, rest: string)
    requires '\n' !in line
    ensures Split(line + "\n" + rest) == [line] + Split(rest)
  {
    hide Break;
    var s := line + "\n" + rest;
    assert s[..|line|] == line && s[|line|] == '\n' && s[|line| + 1..] == rest;
    BreakIs(s, |line|);
  }

  lemma {:induction false} BreakIs(s: string, n: nat)
    requires n <= |s| && '\n' !in s[..n] && (n < |s| ==> s[n] == '\n')
    ensures Break(s) == n
  {
    if n > 0 {
      assert s[0] == s[..n][0] && s[1..][..n - 1] == s[..n][1..];
      BreakIs(s[1..], n - 1);
    }
  }

  // ---------- One line ----------

  predicate Starts(s: string, prefix: string) { prefix <= s }

  function HeaderText(op: Operation): string {
    match op
    case Add => "*** Add File: "
    case Update => "*** Update File: "
    case Delete => "*** Delete File: "
  }

  const MOVE := "*** Move to: "
  const EOF := "*** End of File"
  const BEGIN := "*** Begin Patch"
  const END := "*** End Patch"

  function OperationOf(line: string): Option<Operation> {
    if Starts(line, HeaderText(Add)) then Some(Add)
    else if Starts(line, HeaderText(Update)) then Some(Update)
    else if Starts(line, HeaderText(Delete)) then Some(Delete)
    else None
  }

  predicate Marked(line: string) { Starts(line, "*** ") }

  predicate HunkMark(line: string) { line == "@@" || Starts(line, "@@ ") }

  predicate ContentLine(op: Operation, line: string) {
    line != "" && if op.Add? then line[0] == '+' else line[0] == ' ' || line[0] == '+' || line[0] == '-'
  }

  // ---------- The grammar as a machine over lines ----------

  /** Where the parser is: between files, or inside one, having read so many hunks and so many lines of the last. */
  datatype Mode = Between | Adding(lines: nat) | Updated | Updating(hunks: nat, lines: nat)

  datatype Kind = Header(op: Operation) | Moved | Ended | Hunk | Content(mark: char)

  datatype State = State(mode: Mode, seen: set<string>)

  type Restorer = string -> Option<string>

  /** A file may end here. */
  predicate Closable(m: Mode) {
    match m
    case Adding(lines) => lines > 0
    case Updating(hunks, lines) => hunks > 0 ==> lines > 0
    case _ => true
  }

  /** The restored text, if it may stand in one line. */
  function Single(v: Option<string>): Option<string> { if v.Some? && OneLine(v.value) then v else None }

  /** A path is restored, may occur once, and is remembered. */
  function PathLine(s: State, prefix: string, line: string, mode: Mode, kind: Kind, path: Restorer): Option<(State, string, Kind)>
    requires Starts(line, prefix)
  {
    var p := Single(path(line[|prefix|..]));
    if p.None? || p.value in s.seen then None else Some((State(mode, s.seen + {p.value}), prefix + p.value, kind))
  }

  function TextLine(s: State, keep: string, rest: string, mode: Mode, kind: Kind, content: Restorer): Option<(State, string, Kind)> {
    var c := Single(content(rest));
    if c.None? then None else Some((State(mode, s.seen), keep + c.value, kind))
  }

  function HeaderLine(s: State, line: string, path: Restorer): Option<(State, string, Kind)> {
    match OperationOf(line)
    case None => None
    case Some(op) =>
      PathLine(s, HeaderText(op), line, match op case Add => Adding(0) case Update => Updated case Delete => Between, Header(op), path)
  }

  /** One body line in one mode: what it becomes and where the parser is then. */
  function Step(s: State, line: string, path: Restorer, content: Restorer): Option<(State, string, Kind)> {
    if s.mode.Between? then HeaderLine(s, line, path)
    else if s.mode.Updated? && Starts(line, MOVE) then PathLine(s, MOVE, line, Updating(0, 0), Moved, path)
    else
      var mode := if s.mode.Updated? then Updating(0, 0) else s.mode;
      if Marked(line) then
        if !Closable(mode) then None
        else if mode.Updating? && line == EOF then Some((State(Between, s.seen), line, Ended))
        else HeaderLine(s, line, path)
      else if mode.Updating? && HunkMark(line) then
        if mode.hunks > 0 && mode.lines == 0 then None
        else TextLine(s, "@@", line[2..], Updating(mode.hunks + 1, 0), Hunk, content)
      else if ContentLine(if mode.Adding? then Add else Update, line) then
        var next := if mode.Adding? then Adding(mode.lines + 1)
                    else Updating(if mode.hunks == 0 then 1 else mode.hunks, mode.lines + 1);
        TextLine(s, line[..1], line[1..], next, Content(line[0]), content)
      else None
  }

  /** All body lines in order: the rebuilt lines and the skeleton they follow. */
  function Run(s: State, lines: seq<string>, path: Restorer, content: Restorer): Option<(seq<string>, seq<Kind>)>
    decreases |lines|
  {
    if lines == [] then if Closable(s.mode) then Some(([], [])) else None
    else
      match Step(s, lines[0], path, content)
      case None => None
      case Some((next, out, kind)) =>
        match Run(next, lines[1..], path, content)
        case None => None
        case Some((outs, kinds)) => Some(([out] + outs, [kind] + kinds))
  }

  /** The lines of a patch without the empty one after a final newline. */
  function LinesOf(patch: string): seq<string> {
    var lines := Split(patch);
    if lines[|lines| - 1] == "" then lines[..|lines| - 1] else lines
  }

  predicate Enveloped(lines: seq<string>) { |lines| >= 3 && lines[0] == BEGIN && lines[|lines| - 1] == END }

  function Body(lines: seq<string>): seq<string>
    requires Enveloped(lines)
  {
    lines[1..|lines| - 1]
  }

  const START := State(Between, {})

  /** The whole patch, restored, with its skeleton; None when it is outside the grammar. */
  function Rebuild(patch: string, path: Restorer, content: Restorer): Option<(string, seq<Kind>)> {
    var lines := LinesOf(patch);
    if HasChar(patch, '\r') || HasChar(patch, '\0') || !Enveloped(lines) then None
    else
      match Run(START, Body(lines), path, content)
      case None => None
      case Some((outs, kinds)) =>
        Some((JoinLines([BEGIN] + outs + [END]) + (if patch[|patch| - 1] == '\n' then "\n" else ""), kinds))
  }

  /** The parser, file by file, with its inner loop over the lines of a file. */
  method RestorePatch(patch: string, path: Restorer, content: Restorer) returns (r: Option<string>)
    ensures r == match Rebuild(patch, path, content) case None => None case Some((text, _)) => Some(text)
  {
    hide Step, Run, Split, HeaderLine, Prepend, OperationOf, JoinLines, Body;
    if HasChar(patch, '\r') || HasChar(patch, '\0') {
      return None;
    }
    var lines := Split(patch);
    if lines[|lines| - 1] == "" {
      lines := lines[..|lines| - 1];
    }
    if |lines| < 3 || lines[0] != BEGIN || lines[|lines| - 1] != END {
      return None;
    }
    NonEmptyPatch(patch);
    var newline := patch[|patch| - 1] == '\n';
    var body := Body(lines);
    var s := START;
    var result: seq<string> := [];
    var index := 0;
    ghost var kinds: seq<Kind> := [];
    assert body[0..] == body;
    NothingYet(Run(s, body, path, content));
    while index < |body|
      invariant 0 <= index <= |body| && s.mode.Between?
      invariant Prepend(result, kinds, Run(s, body[index..], path, content)) == Run(START, body, path, content)
      decreases |body| - index
    {
      var line := body[index];
      RunStep(s, body, index, result, kinds, path, content);
      BetweenStep(s, line, path, content);
      var step := HeaderLine(s, line, path);
      if step.None? {
        return None;
      }
      s, result, kinds, index := step.value.0, result + [step.value.1], kinds + [step.value.2], index + 1;
      if s.mode.Between? {
        continue;
      }
      if index < |body| && s.mode.Updated? && Starts(body[index], MOVE) {
        RunStep(s, body, index, result, kinds, path, content);
        MoveStep(s, body[index], path, content);
        step := PathLine(s, MOVE, body[index], Updating(0, 0), Moved, path);
        if step.None? {
          return None;
        }
        s, result, kinds, index := step.value.0, result + [step.value.1], kinds + [step.value.2], index + 1;
      } else if s.mode.Updated? {
        SameAsUpdating(s, body[index..], path, content);
        s := State(Updating(0, 0), s.seen);
      }
      var before := index;
      while index < |body| && !Marked(body[index])
        invariant before <= index <= |body| && (s.mode.Adding? || s.mode.Updating?)
        invariant Prepend(result, kinds, Run(s, body[index..], path, content)) == Run(START, body, path, content)
      {
        RunStep(s, body, index, result, kinds, path, content);
        step := Step(s, body[index], path, content);
        if step.None? {
          return None;
        }
        InsideStep(s, body[index], path, content);
        s, result, kinds, index := step.value.0, result + [step.value.1], kinds + [step.value.2], index + 1;
      }
      if !Closable(s.mode) {
        NotClosable(s, body[index..], path, content);
        NothingAfter(result, kinds);
        return None;
      }
      if s.mode.Updating? && index < |body| && body[index] == EOF {
        RunStep(s, body, index, result, kinds, path, content);
        EndStep(s, path, content);
        s, result, kinds, index := State(Between, s.seen), result + [EOF], kinds + [Ended], index + 1;
      } else {
        Closes(s, body[index..], path, content);
        s := State(Between, s.seen);
      }
    }
    RunEnds(s, body[index..], path, content);
    AllRebuilt(result, kinds);
    return Some(JoinLines([BEGIN] + result + [END]) + if newline then "\n" else "");
  }

  lemma NonEmptyPatch(patch: string)
    requires Enveloped(LinesOf(patch))
    ensures patch != ""
  {
  }

  function Prepend(outs: seq<string>, kinds: seq<Kind>, r: Option<(seq<string>, seq<Kind>)>): Option<(seq<string>, seq<Kind>)> {
    if r.None? then None else Some((outs + r.value.0, kinds + r.value.1))
  }

  lemma AllRebuilt(outs: seq<string>, kinds: seq<Kind>)
    ensures Prepend(outs, kinds, Some(([], []))) == Some((outs, kinds))
  {
    assert outs + [] == outs && kinds + [] == kinds;
  }

  lemma NothingAfter(outs: seq<string>, kinds: seq<Kind>)
    ensures Prepend(outs, kinds, None) == None
  {
  }

  lemma NothingYet(r: Option<(seq<string>, seq<Kind>)>)
    ensures Prepend([], [], r) == r
  {
    if r.Some? {
      assert [] + r.value.0 == r.value.0 && [] + r.value.1 == r.value.1;
    }
  }

  lemma RunStep(s: State, body: seq<string>, index: nat, outs: seq<string>, kinds: seq<Kind>, path: Restorer, content: Restorer)
    requires index < |body|
    ensures var step := Step(s, body[index], path, content);
            Prepend(outs, kinds, Run(s, body[index..], path, content))
            == if step.None? then None
               else Prepend(outs + [step.value.1], kinds + [step.value.2], Run(step.value.0, body[index + 1..], path, content))
  {
    hide Step;
    assert body[index..][1..] == body[index + 1..];
    var step := Step(s, body[index], path, content);
    if step.Some? && Run(step.value.0, body[index + 1..], path, content).Some? {
      var rest := Run(step.value.0, body[index + 1..], path, content).value;
      Associate(outs, [step.value.1], rest.0);
      Associate(kinds, [step.value.2], rest.1);
    }
  }

  lemma RunEnds(s: State, rest: seq<string>, path: Restorer, content: Restorer)
    requires rest == [] && s.mode.Between?
    ensures Run(s, rest, path, content) == Some(([], []))
  {
  }

  lemma BetweenStep(s: State, line: string, path: Restorer, content: Restorer)
    requires s.mode.Between?
    ensures Step(s, line, path, content) == HeaderLine(s, line, path)
    ensures HeaderLine(s, line, path).Some? ==>
              var m := HeaderLine(s, line, path).value.0.mode; m.Between? || m == Adding(0) || m.Updated?
  {
  }

  lemma MoveStep(s: State, line: string, path: Restorer, content: Restorer)
    requires s.mode.Updated? && Starts(line, MOVE)
    ensures Step(s, line, path, content) == PathLine(s, MOVE, line, Updating(0, 0), Moved, path)
    ensures PathLine(s, MOVE, line, Updating(0, 0), Moved, path).Some? ==>
              PathLine(s, MOVE, line, Updating(0, 0), Moved, path).value.0.mode == Updating(0, 0)
  {
  }

  /** Without a move, an update goes straight to its hunks. */
  lemma SameAsUpdating(s: State, rest: seq<string>, path: Restorer, content: Restorer)
    requires s.mode.Updated? && (rest == [] || !Starts(rest[0], MOVE))
    ensures Run(s, rest, path, content) == Run(State(Updating(0, 0), s.seen), rest, path, content)
  {
    hide HeaderLine;
    if rest != [] && Marked(rest[0]) {
      HeaderSees(s, State(Updating(0, 0), s.seen), rest[0], path);
    }
  }

  lemma HeaderSees(s: State, t: State, line: string, path: Restorer)
    requires s.seen == t.seen
    ensures HeaderLine(s, line, path) == HeaderLine(t, line, path)
  {
  }

  lemma InsideStep(s: State, line: string, path: Restorer, content: Restorer)
    requires (s.mode.Adding? || s.mode.Updating?) && !Marked(line)
    ensures Step(s, line, path, content).Some? ==>
              var m := Step(s, line, path, content).value.0.mode; m.Adding? || m.Updating?
  {
  }

  lemma NotClosable(s: State, rest: seq<string>, path: Restorer, content: Restorer)
    requires (s.mode.Adding? || s.mode.Updating?) && !Closable(s.mode) && (rest == [] || Marked(rest[0]))
    ensures Run(s, rest, path, content).None?
  {
  }

  lemma EndStep(s: State, path: Restorer, content: Restorer)
    requires s.mode.Updating? && Closable(s.mode)
    ensures Step(s, EOF, path, content) == Some((State(Between, s.seen), EOF, Ended))
  {
  }

  lemma Closes(s: State, rest: seq<string>, path: Restorer, content: Restorer)
    requires (s.mode.Adding? || s.mode.Updating?) && Closable(s.mode)
    requires rest == [] || (Marked(rest[0]) && !(s.mode.Updating? && rest[0] == EOF))
    ensures Run(s, rest, path, content) == Run(State(Between, s.seen), rest, path, content)
  {
    hide HeaderLine;
    if rest != [] {
      HeaderSees(s, State(Between, s.seen), rest[0], path);
    }
  }

  // ---------- Restoring is stable ----------

  /** What the second pass checks of a path or a text that the first one produced: it stands. */
  ghost predicate Settles(first: Restorer, second: Restorer) {
    forall x, y | first(x) == Some(y) :: second(y) == Some(y)
  }

  /** A hunk's context stays empty or led by a space. */
  predicate ContextKept(line: string, content: Restorer) {
    |line| >= 2 && content(line[2..]).Some? ==>
      content(line[2..]).value == "" || content(line[2..]).value[0] == ' '
  }

  ghost predicate ContextsKept(lines: seq<string>, kinds: seq<Kind>, content: Restorer) {
    |lines| == |kinds| && forall k | 0 <= k < |kinds| && kinds[k].Hunk? :: ContextKept(lines[k], content)
  }

  lemma PathAgain(s: State, prefix: string, line: string, mode: Mode, kind: Kind, path: Restorer, path': Restorer)
    requires Starts(line, prefix) && PathLine(s, prefix, line, mode, kind, path).Some? && Settles(path, path')
    ensures var out := PathLine(s, prefix, line, mode, kind, path).value.1;
            && Starts(out, prefix) && PathLine(s, prefix, line, mode, kind, path).value.2 == kind
            && PathLine(s, prefix, out, mode, kind, path') == PathLine(s, prefix, line, mode, kind, path)
  {
    var out := PathLine(s, prefix, line, mode, kind, path).value.1;
    assert out[..|prefix|] == prefix;
    assert out[|prefix|..] == path(line[|prefix|..]).value;
  }

  lemma TextAgain(s: State, keep: string, rest: string, mode: Mode, kind: Kind, content: Restorer, content': Restorer)
    requires TextLine(s, keep, rest, mode, kind, content).Some? && Settles(content, content')
    ensures var out := TextLine(s, keep, rest, mode, kind, content).value.1;
            && keep <= out && TextLine(s, keep, rest, mode, kind, content).value.2 == kind
            && TextLine(s, keep, out[|keep|..], mode, kind, content') == TextLine(s, keep, rest, mode, kind, content)
  {
    var out := TextLine(s, keep, rest, mode, kind, content).value.1;
    assert out[|keep|..] == content(rest).value;
  }

  lemma OneOperation(op: Operation, line: string)
    requires Starts(line, HeaderText(op))
    ensures OperationOf(line) == Some(op) && Marked(line) && line != EOF && !Starts(line, MOVE) && !HunkMark(line)
  {
    assert HeaderText(Add)[4] == 'A' && HeaderText(Update)[4] == 'U' && HeaderText(Delete)[4] == 'D';
    assert MOVE[4] == 'M' && EOF[4] == 'E' && "@@ "[0] == '@';
    assert line[4] == HeaderText(op)[4] && line[0] == HeaderText(op)[0] == '*';
    assert line[..4] == HeaderText(op)[..4] == "*** ";
  }

  lemma HeaderAgain(s: State, line: string, path: Restorer, path': Restorer)
    requires HeaderLine(s, line, path).Some? && Settles(path, path')
    ensures var out := HeaderLine(s, line, path).value.1;
            && HeaderLine(s, out, path') == HeaderLine(s, line, path) && !HeaderLine(s, line, path).value.2.Hunk?
            && Marked(out) && out != EOF && !Starts(out, MOVE)
  {
    hide PathLine, Settles;
    var op := OperationOf(line).value;
    var mode := match op case Add => Adding(0) case Update => Updated case Delete => Between;
    PathAgain(s, HeaderText(op), line, mode, Header(op), path, path');
    OneOperation(op, HeaderLine(s, line, path).value.1);
  }

  /** A content line keeps its mark, so it is never taken for anything else. */
  lemma ContentOut(op: Operation, line: string, out: string)
    requires ContentLine(op, line) && line[..1] <= out
    ensures ContentLine(op, out) && out[..1] == line[..1] && out[0] == line[0] && !Marked(out) && !HunkMark(out) && !Starts(out, MOVE)
  {
    assert out[0] == line[0];
    assert MOVE[0] == '*';
  }

  lemma HunkOut(rest: string)
    ensures var out := "@@" + rest;
            && !Marked(out) && !Starts(out, MOVE) && out[2..] == rest
            && (HunkMark(out) <==> rest == "" || rest[0] == ' ')
            && !ContentLine(Update, out) && !ContentLine(Add, out)
  {
    var out := "@@" + rest;
    assert out[2..] == rest;
    assert out[0] == '@' && MOVE[0] == '*' && "*** "[0] == '*';
    if rest != "" && rest[0] == ' ' {
      assert out[..3] == "@@ ";
    }
    if Starts(out, "@@ ") {
      assert out[2] == "@@ "[2];
    }
    if rest == "" {
      assert out == "@@";
    }
  }

  /** The rebuilt line takes the parser through the same step, or, for a spoilt hunk context, nowhere. */
  lemma StepAgain(s: State, line: string, path: Restorer, content: Restorer, path': Restorer, content': Restorer)
    requires Step(s, line, path, content).Some? && Settles(path, path') && Settles(content, content')
    ensures var r := Step(s, line, path, content);
            var again := Step(s, r.value.1, path', content');
            if r.value.2.Hunk? && !ContextKept(line, content) then again.None? else again == r
  {
    hide PathLine, TextLine, HeaderLine, Settles, HunkMark, ContentLine, OperationOf, HeaderText;
    var r := Step(s, line, path, content);
    var out := r.value.1;
    var mode := if s.mode.Updated? then Updating(0, 0) else s.mode;
    if s.mode.Between? {
      HeaderAgain(s, line, path, path');
    } else if s.mode.Updated? && Starts(line, MOVE) {
      PathAgain(s, MOVE, line, Updating(0, 0), Moved, path, path');
    } else if Marked(line) {
      if mode.Updating? && line == EOF {
        EofIsMarked();
      } else {
        HeaderAgain(s, line, path, path');
      }
    } else if mode.Updating? && HunkMark(line) {
      HunkAgain(s, line, mode, content, content');
    } else {
      var op := if mode.Adding? then Add else Update;
      var next := if mode.Adding? then Adding(mode.lines + 1)
                  else Updating(if mode.hunks == 0 then 1 else mode.hunks, mode.lines + 1);
      NonEmpty(op, line);
      TextAgain(s, line[..1], line[1..], next, Content(line[0]), content, content');
      ContentOut(op, line, out);
    }
  }

  lemma NonEmpty(op: Operation, line: string)
    requires ContentLine(op, line)
    ensures line != "" && |line[..1]| == 1
  {
  }

  lemma EofIsMarked()
    ensures Marked(EOF) && !Starts(EOF, MOVE)
  {
    assert EOF[..4] == "*** ";
    assert EOF[4] == 'E' && MOVE[4] == 'M';
  }

  lemma HunkAgain(s: State, line: string, mode: Mode, content: Restorer, content': Restorer)
    requires mode.Updating? && HunkMark(line) && Settles(content, content')
    requires TextLine(s, "@@", line[2..], Updating(mode.hunks + 1, 0), Hunk, content).Some?
    ensures var r := TextLine(s, "@@", line[2..], Updating(mode.hunks + 1, 0), Hunk, content);
            var out := r.value.1;
            && r.value.2.Hunk? && |out| >= 2 && !Marked(out) && !Starts(out, MOVE) && !ContentLine(Update, out)
            && (HunkMark(out) <==> ContextKept(line, content))
            && TextLine(s, "@@", out[2..], Updating(mode.hunks + 1, 0), Hunk, content') == r
  {
    TextAgain(s, "@@", line[2..], Updating(mode.hunks + 1, 0), Hunk, content, content');
    var out := TextLine(s, "@@", line[2..], Updating(mode.hunks + 1, 0), Hunk, content).value.1;
    hide Settles, HunkMark, ContentLine;
    HunkOut(content(line[2..]).value);
    LongEnough(line);
  }

  lemma LongEnough(line: string)
    requires HunkMark(line)
    ensures |line| >= 2
  {
  }

  lemma {:induction false} RunAgain(s: State, lines: seq<string>, path: Restorer, content: Restorer, path': Restorer, content': Restorer)
    requires Run(s, lines, path, content).Some? && Settles(path, path') && Settles(content, content')
    ensures var (outs, kinds) := Run(s, lines, path, content).value;
            && |outs| == |kinds| == |lines|
            && if ContextsKept(lines, kinds, content) then Run(s, outs, path', content') == Some((outs, kinds))
               else Run(s, outs, path', content').None?
    decreases |lines|
  {
    hide Step, Settles, ContextKept;
    if lines != [] {
      var (next, out, kind) := Step(s, lines[0], path, content).value;
      var (outs, kinds) := Run(next, lines[1..], path, content).value;
      StepAgain(s, lines[0], path, content, path', content');
      RunAgain(next, lines[1..], path, content, path', content');
      assert ([out] + outs)[1..] == outs && ([kind] + kinds)[1..] == kinds;
      ContextsCons(lines, [kind] + kinds, content);
    }
  }

  lemma ContextsCons(lines: seq<string>, kinds: seq<Kind>, content: Restorer)
    requires |lines| == |kinds| > 0
    ensures ContextsKept(lines, kinds, content) <==>
            (kinds[0].Hunk? ==> ContextKept(lines[0], content)) && ContextsKept(lines[1..], kinds[1..], content)
  {
    hide ContextKept;
  }

  // ---------- Whole patches ----------

  predicate AllOneLine(lines: seq<string>) { forall l | l in lines :: OneLine(l) }

  lemma Glued(a: string, b: string)
    requires OneLine(a) && OneLine(b)
    ensures OneLine(a + b)
  {
  }

  lemma PathOneLine(s: State, prefix: string, line: string, mode: Mode, kind: Kind, path: Restorer)
    requires Starts(line, prefix) && OneLine(prefix)
    ensures PathLine(s, prefix, line, mode, kind, path).Some? ==> OneLine(PathLine(s, prefix, line, mode, kind, path).value.1)
  {
    hide OneLine;
    var p := Single(path(line[|prefix|..]));
    if p.Some? {
      Glued(prefix, p.value);
    }
  }

  lemma TextOneLine(s: State, keep: string, rest: string, mode: Mode, kind: Kind, content: Restorer)
    requires OneLine(keep)
    ensures TextLine(s, keep, rest, mode, kind, content).Some? ==> OneLine(TextLine(s, keep, rest, mode, kind, content).value.1)
  {
    hide OneLine;
    var c := Single(content(rest));
    if c.Some? {
      Glued(keep, c.value);
    }
  }

  lemma HeaderOneLine(s: State, line: string, path: Restorer)
    ensures HeaderLine(s, line, path).Some? ==> OneLine(HeaderLine(s, line, path).value.1)
  {
    assert OneLine(HeaderText(Add)) && OneLine(HeaderText(Update)) && OneLine(HeaderText(Delete));
    hide OneLine, PathLine, HeaderText;
    if OperationOf(line).Some? {
      var op := OperationOf(line).value;
      PathOneLine(s, HeaderText(op), line, match op case Add => Adding(0) case Update => Updated case Delete => Between, Header(op), path);
    }
  }

  lemma StepOneLine(s: State, line: string, path: Restorer, content: Restorer)
    requires Step(s, line, path, content).Some? && OneLine(line)
    ensures OneLine(Step(s, line, path, content).value.1)
  {
    assert OneLine("@@") && OneLine(MOVE);
    assert line != "" ==> OneLine(line[..1]) by {
      if line != "" { assert forall c | c in line[..1] :: c in line; }
    }
    hide OneLine, PathLine, TextLine, HeaderLine;
    HeaderOneLine(s, line, path);
    var mode := if s.mode.Updated? then Updating(0, 0) else s.mode;
    if s.mode.Updated? && Starts(line, MOVE) {
      PathOneLine(s, MOVE, line, Updating(0, 0), Moved, path);
    } else if !s.mode.Between? && !Marked(line) {
      if mode.Updating? && HunkMark(line) {
        TextOneLine(s, "@@", line[2..], Updating(mode.hunks + 1, 0), Hunk, content);
      } else {
        var next := if mode.Adding? then Adding(mode.lines + 1)
                    else Updating(if mode.hunks == 0 then 1 else mode.hunks, mode.lines + 1);
        TextOneLine(s, line[..1], line[1..], next, Content(line[0]), content);
      }
    }
  }

  lemma {:induction false} RunOneLine(s: State, lines: seq<string>, path: Restorer, content: Restorer)
    requires Run(s, lines, path, content).Some? && AllOneLine(lines)
    ensures AllOneLine(Run(s, lines, path, content).value.0)
    decreases |lines|
  {
    hide Step, OneLine;
    if lines != [] {
      assert lines[0] in lines;
      StepOneLine(s, lines[0], path, content);
      RunOneLine(Step(s, lines[0], path, content).value.0, lines[1..], path, content);
    }
  }

  lemma {:induction false} SplitOneLine(s: string)
    requires !HasChar(s, '\r') && !HasChar(s, '\0')
    ensures AllOneLine(Split(s))
    decreases |s|
  {
    var i := Break(s);
    assert forall c | c in s[..i] :: c in s;
    if i < |s| {
      assert forall c | c in s[i + 1..] :: c in s;
      SplitOneLine(s[i + 1..]);
    }
  }

  function NewlineIf(b: bool): string { if b then "\n" else "" }

  /** Joined lines, with or without a final newline, split into themselves again. */
  lemma LinesBack(lines: seq<string>, newline: bool)
    requires lines != [] && lines[|lines| - 1] != "" && AllOneLine(lines)
    ensures var text := JoinLines(lines) + NewlineIf(newline);
            && LinesOf(text) == lines && text != "" && (text[|text| - 1] == '\n' <==> newline)
            && !HasChar(text, '\r') && !HasChar(text, '\0')
  {
    hide JoinLines, Split;
    var text := JoinLines(lines) + NewlineIf(newline);
    JoinChars(lines);
    JoinEnd(lines);
    if newline {
      var more := lines + [""];
      JoinLast(lines);
      assert forall l | l in more :: '\n' !in l;
      JoinSplits(more);
      assert more[..|more| - 1] == lines;
      assert text == JoinLines(more);
    } else {
      JoinSplits(lines);
      assert text == JoinLines(lines);
    }
  }

  lemma {:induction false} JoinChars(lines: seq<string>)
    requires AllOneLine(lines)
    ensures '\r' !in JoinLines(lines) && '\0' !in JoinLines(lines)
  {
    if lines != [] {
      assert lines[0] in lines && OneLine(lines[0]);
      JoinChars(lines[1..]);
    }
  }

  lemma {:induction false} JoinEnd(lines: seq<string>)
    requires lines != [] && lines[|lines| - 1] != "" && AllOneLine(lines)
    ensures var text := JoinLines(lines); text != "" && text[|text| - 1] != '\n'
  {
    var last := lines[|lines| - 1];
    if |lines| == 1 {
      assert last in lines && last[|last| - 1] in last;
    } else {
      assert lines[1..][|lines| - 2] == last;
      JoinEnd(lines[1..]);
    }
  }

  lemma {:induction false} JoinLast(lines: seq<string>)
    requires lines != []
    ensures JoinLines(lines + [""]) == JoinLines(lines) + "\n"
  {
    if |lines| == 1 {
      assert (lines + [""])[1..] == [""];
    } else {
      assert (lines + [""])[1..] == lines[1..] + [""];
      JoinLast(lines[1..]);
      assert JoinLines(lines + [""]) == lines[0] + "\n" + (JoinLines(lines[1..]) + "\n");
    }
  }

  /** The rebuilt patch parses again, to itself and with the same skeleton, exactly when every restored hunk context
      is empty or led by a space. */
  lemma RebuiltParsesAgain(patch: string, path: Restorer, content: Restorer, path': Restorer, content': Restorer)
    requires Rebuild(patch, path, content).Some? && Settles(path, path') && Settles(content, content')
    ensures var (text, kinds) := Rebuild(patch, path, content).value;
            if ContextsKept(Body(LinesOf(patch)), kinds, content) then Rebuild(text, path', content') == Some((text, kinds))
            else Rebuild(text, path', content').None?
  {
    hide Run, Settles, ContextsKept, Split, JoinLines, AllOneLine;
    NonEmptyPatch(patch);
    var lines := LinesOf(patch);
    var body := Body(lines);
    var (outs, kinds) := Run(START, body, path, content).value;
    RunAgain(START, body, path, content, path', content');
    BodyOneLine(patch);
    RunOneLine(START, body, path, content);
    EnvelopeBack(outs, patch[|patch| - 1] == '\n');
  }

  lemma BodyOneLine(patch: string)
    requires !HasChar(patch, '\r') && !HasChar(patch, '\0') && Enveloped(LinesOf(patch))
    ensures AllOneLine(Body(LinesOf(patch)))
  {
    SplitOneLine(patch);
    hide OneLine;
  }

  lemma EnvelopeBack(outs: seq<string>, newline: bool)
    requires AllOneLine(outs) && outs != []
    ensures var text := JoinLines([BEGIN] + outs + [END]) + NewlineIf(newline);
            && Enveloped(LinesOf(text)) && Body(LinesOf(text)) == outs
            && text != "" && (text[|text| - 1] == '\n' <==> newline) && !HasChar(text, '\r') && !HasChar(text, '\0')
  {
    assert OneLine(BEGIN) && OneLine(END);
    hide OneLine;
    var lines := [BEGIN] + outs + [END];
    assert AllOneLine(lines);
    LinesBack(lines, newline);
    assert lines[1..|lines| - 1] == outs;
  }

  // ---------- Restoring nothing ----------

  const KEEP: Restorer := (s: string) => Some(s)

  lemma PathKeeps(s: State, prefix: string, line: string, mode: Mode, kind: Kind)
    requires Starts(line, prefix)
    ensures PathLine(s, prefix, line, mode, kind, KEEP).Some? ==> PathLine(s, prefix, line, mode, kind, KEEP).value.1 == line
  {
    assert prefix + line[|prefix|..] == line;
  }

  lemma TextKeeps(s: State, keep: string, line: string, mode: Mode, kind: Kind)
    requires Starts(line, keep)
    ensures TextLine(s, keep, line[|keep|..], mode, kind, KEEP).Some? ==>
              TextLine(s, keep, line[|keep|..], mode, kind, KEEP).value.1 == line
  {
    assert keep + line[|keep|..] == line;
  }

  lemma HeaderKeeps(s: State, line: string)
    ensures HeaderLine(s, line, KEEP).Some? ==> HeaderLine(s, line, KEEP).value.1 == line
  {
    hide PathLine, HeaderText, KEEP;
    if OperationOf(line).Some? {
      var op := OperationOf(line).value;
      PathKeeps(s, HeaderText(op), line, match op case Add => Adding(0) case Update => Updated case Delete => Between, Header(op));
    }
  }

  lemma StepKeeps(s: State, line: string)
    requires Step(s, line, KEEP, KEEP).Some?
    ensures Step(s, line, KEEP, KEEP).value.1 == line
  {
    assert HunkMark(line) ==> Starts(line, "@@") by {
      if Starts(line, "@@ ") { assert line[..2] == "@@ "[..2] == "@@"; }
    }
    hide PathLine, TextLine, HeaderLine, KEEP;
    HeaderKeeps(s, line);
    var mode := if s.mode.Updated? then Updating(0, 0) else s.mode;
    if s.mode.Updated? && Starts(line, MOVE) {
      PathKeeps(s, MOVE, line, Updating(0, 0), Moved);
    } else if !s.mode.Between? && !Marked(line) {
      if mode.Updating? && HunkMark(line) {
        TextKeeps(s, "@@", line, Updating(mode.hunks + 1, 0), Hunk);
      } else {
        var next := if mode.Adding? then Adding(mode.lines + 1)
                    else Updating(if mode.hunks == 0 then 1 else mode.hunks, mode.lines + 1);
        TextKeeps(s, line[..1], line, next, Content(line[0]));
      }
    }
  }

  lemma {:induction false} RunKeeps(s: State, lines: seq<string>)
    requires Run(s, lines, KEEP, KEEP).Some?
    ensures Run(s, lines, KEEP, KEEP).value.0 == lines
    decreases |lines|
  {
    hide Step, KEEP;
    if lines != [] {
      StepKeeps(s, lines[0]);
      RunKeeps(Step(s, lines[0], KEEP, KEEP).value.0, lines[1..]);
    }
  }

  /** With nothing to restore, an accepted patch comes back byte for byte. */
  lemma KeepIsIdentity(patch: string)
    requires Rebuild(patch, KEEP, KEEP).Some?
    ensures Rebuild(patch, KEEP, KEEP).value.0 == patch
  {
    hide Run, Split, JoinLines, KEEP;
    var lines := LinesOf(patch);
    RunKeeps(START, Body(lines));
    assert [BEGIN] + Body(lines) + [END] == lines;
    SplitJoins(patch);
    LastLine(patch);
  }

  lemma LastLine(patch: string)
    requires LinesOf(patch) != [] && LinesOf(patch)[|LinesOf(patch)| - 1] != ""
    ensures patch != "" && patch == JoinLines(LinesOf(patch)) + NewlineIf(patch[|patch| - 1] == '\n')
  {
    hide Split, JoinLines;
    var all := Split(patch);
    SplitJoins(patch);
    SplitClean(patch);
    if all[|all| - 1] == "" {
      JoinLast(LinesOf(patch));
      assert LinesOf(patch) + [""] == all;
    } else {
      NoFinalNewline(all);
    }
  }

  lemma {:induction false} SplitClean(s: string)
    ensures forall l | l in Split(s) :: '\n' !in l
    decreases |s|
  {
    var i := Break(s);
    if i < |s| {
      SplitClean(s[i + 1..]);
    }
  }

  lemma {:induction false} NoFinalNewline(lines: seq<string>)
    requires lines != [] && lines[|lines| - 1] != "" && forall l | l in lines :: '\n' !in l
    ensures var text := JoinLines(lines); text != "" && text[|text| - 1] != '\n'
  {
    var last := lines[|lines| - 1];
    assert last in lines && last[|last| - 1] in last;
    if |lines| > 1 {
      assert lines[1..][|lines| - 2] == last;
      NoFinalNewline(lines[1..]);
    }
  }
}

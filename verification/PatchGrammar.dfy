/** Patches as documents: files, hunks and changed lines, how they are spelled, and which spellings the parser accepts. */
module PatchGrammar {
  import opened Text
  import opened Tokens
  import opened Patches

  /** One line of a hunk: added, removed, or kept as context. */
  datatype Change = Change(mark: char, text: string)

  /** A hunk under its own `@@` line. */
  datatype Section = Section(context: string, changes: seq<Change>)

  /** What a patch does with a file; the first hunk of an update may lack its `@@` line. */
  datatype Body =
    | Deleted
    | Added(lines: seq<string>)
    | Changed(move: Option<string>, first: seq<Change>, sections: seq<Section>, eof: bool)

  datatype File = File(path: string, body: Body)

  // ---------- Spelling ----------

  function Title(b: Body): string {
    match b
    case Deleted => "*** Delete File: "
    case Added(_) => "*** Add File: "
    case Changed(_, _, _, _) => "*** Update File: "
  }

  function AddedLines(lines: seq<string>): seq<string> {
    if lines == [] then [] else ["+" + lines[0]] + AddedLines(lines[1..])
  }

  function ChangeLines(changes: seq<Change>): seq<string> {
    if changes == [] then [] else [[changes[0].mark] + changes[0].text] + ChangeLines(changes[1..])
  }

  function SectionLines(sections: seq<Section>): seq<string> {
    if sections == [] then []
    else ["@@" + sections[0].context] + (ChangeLines(sections[0].changes) + SectionLines(sections[1..]))
  }

  function BodyLines(b: Body): seq<string> {
    match b
    case Deleted => []
    case Added(lines) => AddedLines(lines)
    case Changed(move, first, sections, eof) =>
      (if move.Some? then ["*** Move to: " + move.value] else [])
      + (ChangeLines(first) + (SectionLines(sections) + if eof then ["*** End of File"] else []))
  }

  function FileLines(files: seq<File>): seq<string> {
    if files == [] then []
    else [Title(files[0].body) + files[0].path] + (BodyLines(files[0].body) + FileLines(files[1..]))
  }

  /** The whole document, with or without a final newline. */
  function Document(files: seq<File>, newline: bool): string {
    JoinLines(["*** Begin Patch"] + FileLines(files) + ["*** End Patch"]) + if newline then "\n" else ""
  }

  // ---------- Which documents are patches ----------

  predicate ChangesOk(changes: seq<Change>) {
    forall c | c in changes :: c.mark == ' ' || c.mark == '+' || c.mark == '-'
  }

  /** A hunk changes something, and its context is empty or set off by a space. */
  predicate SectionOk(s: Section) {
    |s.changes| >= 1 && ChangesOk(s.changes) && (s.context == "" || s.context[0] == ' ')
  }

  predicate BodyOk(b: Body) {
    && (b.Added? ==> |b.lines| >= 1)
    && (b.Changed? ==> ChangesOk(b.first) && forall s | s in b.sections :: SectionOk(s))
  }

  predicate FilesOk(files: seq<File>) { forall f | f in files :: BodyOk(f.body) }

  // ---------- Restoring a document ----------

  /** A text comes back, and still fits one line. */
  predicate Passes(r: Restorer, text: string) { r(text).Some? && OneLine(r(text).value) }

  function Mended(r: Restorer, text: string): string { if r(text).Some? then r(text).value else text }

  function MendLines(lines: seq<string>, r: Restorer): seq<string> {
    if lines == [] then [] else [Mended(r, lines[0])] + MendLines(lines[1..], r)
  }

  function MendChanges(changes: seq<Change>, r: Restorer): seq<Change> {
    if changes == [] then [] else [Change(changes[0].mark, Mended(r, changes[0].text))] + MendChanges(changes[1..], r)
  }

  function MendSections(sections: seq<Section>, r: Restorer): seq<Section> {
    if sections == [] then []
    else [Section(Mended(r, sections[0].context), MendChanges(sections[0].changes, r))] + MendSections(sections[1..], r)
  }

  function MendBody(b: Body, path: Restorer, content: Restorer): Body {
    match b
    case Deleted => Deleted
    case Added(lines) => Added(MendLines(lines, content))
    case Changed(move, first, sections, eof) =>
      Changed(if move.Some? then Some(Mended(path, move.value)) else None, MendChanges(first, content), MendSections(sections, content), eof)
  }

  function MendFiles(files: seq<File>, path: Restorer, content: Restorer): seq<File> {
    if files == [] then []
    else [File(Mended(path, files[0].path), MendBody(files[0].body, path, content))] + MendFiles(files[1..], path, content)
  }

  predicate ChangesPass(changes: seq<Change>, r: Restorer) { forall c | c in changes :: Passes(r, c.text) }

  predicate SectionPasses(s: Section, r: Restorer) { Passes(r, s.context) && ChangesPass(s.changes, r) }

  predicate BodyPasses(b: Body, path: Restorer, content: Restorer) {
    match b
    case Deleted => true
    case Added(lines) => forall l | l in lines :: Passes(content, l)
    case Changed(move, first, sections, _) =>
      (move.Some? ==> Passes(path, move.value)) && ChangesPass(first, content) && forall s | s in sections :: SectionPasses(s, content)
  }

  predicate FilesPass(files: seq<File>, path: Restorer, content: Restorer) {
    forall f | f in files :: Passes(path, f.path) && BodyPasses(f.body, path, content)
  }

  function MovePaths(b: Body): seq<string> { if b.Changed? && b.move.Some? then [b.move.value] else [] }

  /** Every path a patch writes to or moves to. */
  function Paths(files: seq<File>): seq<string> {
    if files == [] then [] else [files[0].path] + (MovePaths(files[0].body) + Paths(files[1..]))
  }

  /** No path twice, and none of those seen before. */
  predicate Fresh(paths: seq<string>, seen: set<string>) {
    && (forall i, j | 0 <= i < j < |paths| :: paths[i] != paths[j])
    && (forall p | p in paths :: p !in seen)
  }

  lemma FreshCons(p: string, paths: seq<string>, seen: set<string>)
    ensures Fresh([p] + paths, seen) <==> p !in seen && Fresh(paths, seen + {p})
  {
    var all := [p] + paths;
    assert forall k | 0 <= k < |paths| :: all[k + 1] == paths[k];
    if p !in seen && Fresh(paths, seen + {p}) {
      forall i, j | 0 <= i < j < |all|
        ensures all[i] != all[j]
      {
        assert all[j] == paths[j - 1];
      }
    }
    if Fresh(all, seen) {
      forall k | 0 <= k < |paths|
        ensures paths[k] != p && paths[k] !in seen
      {
        assert all[0] != all[k + 1];
        assert all[k + 1] in all;
      }
      forall i, j | 0 <= i < j < |paths|
        ensures paths[i] != paths[j]
      {
        assert all[i + 1] != all[j + 1];
      }
    }
  }

  // ---------- What is left of a document, line by line ----------

  /** What may be left of a file once the parser stands in a mode. */
  predicate Left(m: Mode, b: Body) {
    match m
    case Between => b.Deleted?
    case Adding(n) => b.Added? && (n == 0 ==> |b.lines| >= 1)
    case Updated => b.Changed?
    case Updating(hunks, n) => b.Changed? && b.move.None? && (hunks > 0 && n == 0 ==> |b.first| >= 1)
  }

  predicate PartOk(b: Body) { b.Changed? ==> ChangesOk(b.first) && forall s | s in b.sections :: SectionOk(s) }

  /** These lines are the rest of one file and further files, and these are the lines after restoring. */
  ghost predicate Reads(s: State, b: Body, files: seq<File>, lines: seq<string>, outs: seq<string>, path: Restorer, content: Restorer) {
    && Left(s.mode, b) && PartOk(b) && FilesOk(files)
    && lines == BodyLines(b) + FileLines(files)
    && BodyPasses(b, path, content) && FilesPass(files, path, content)
    && Fresh(MovePaths(MendBody(b, path, content)) + Paths(MendFiles(files, path, content)), s.seen)
    && outs == BodyLines(MendBody(b, path, content)) + FileLines(MendFiles(files, path, content))
  }

  /** The end of the current file, when it may end here. */
  function Nothing(m: Mode): Body {
    match m
    case Between => Deleted
    case Adding(_) => Added([])
    case _ => Changed(None, [], [], false)
  }

  lemma Heads(a: string, x: seq<string>, b: string, y: seq<string>)
    ensures [a] + x == [b] + y <==> a == b && x == y
  {
    assert ([a] + x)[0] == a && ([a] + x)[1..] == x;
    assert ([b] + y)[0] == b && ([b] + y)[1..] == y;
  }

  lemma Onto(a: string, x: seq<string>, y: seq<string>)
    ensures ([a] + x) + y == [a] + (x + y)
  {
  }

  lemma ConsIn<T>(x: T, xs: seq<T>)
    ensures forall y :: y in [x] + xs <==> y == x || y in xs
  {
  }

  lemma AddedCons(text: string, lines: seq<string>, r: Restorer)
    ensures AddedLines([text] + lines) == ["+" + text] + AddedLines(lines)
    ensures MendLines([text] + lines, r) == [Mended(r, text)] + MendLines(lines, r)
  {
    assert ([text] + lines)[1..] == lines;
  }

  lemma ChangesCons(c: Change, changes: seq<Change>, r: Restorer)
    ensures ChangeLines([c] + changes) == [[c.mark] + c.text] + ChangeLines(changes)
    ensures MendChanges([c] + changes, r) == [Change(c.mark, Mended(r, c.text))] + MendChanges(changes, r)
    ensures ChangesOk([c] + changes) <==> (c.mark == ' ' || c.mark == '+' || c.mark == '-') && ChangesOk(changes)
    ensures ChangesPass([c] + changes, r) <==> Passes(r, c.text) && ChangesPass(changes, r)
  {
    assert ([c] + changes)[1..] == changes;
    ConsIn(c, changes);
  }

  lemma SectionsCons(x: Section, sections: seq<Section>, r: Restorer)
    ensures SectionLines([x] + sections) == ["@@" + x.context] + (ChangeLines(x.changes) + SectionLines(sections))
    ensures MendSections([x] + sections, r) == [Section(Mended(r, x.context), MendChanges(x.changes, r))] + MendSections(sections, r)
    ensures (forall y | y in [x] + sections :: SectionOk(y)) <==> SectionOk(x) && forall y | y in sections :: SectionOk(y)
    ensures (forall y | y in [x] + sections :: SectionPasses(y, r)) <==>
              SectionPasses(x, r) && forall y | y in sections :: SectionPasses(y, r)
  {
    hide SectionOk, SectionPasses;
    assert ([x] + sections)[1..] == sections;
    ConsIn(x, sections);
  }

  lemma FilesCons(f: File, files: seq<File>, path: Restorer, content: Restorer)
    ensures FileLines([f] + files) == [Title(f.body) + f.path] + (BodyLines(f.body) + FileLines(files))
    ensures MendFiles([f] + files, path, content) == [File(Mended(path, f.path), MendBody(f.body, path, content))] + MendFiles(files, path, content)
    ensures FilesOk([f] + files) <==> BodyOk(f.body) && FilesOk(files)
    ensures FilesPass([f] + files, path, content) <==>
              Passes(path, f.path) && BodyPasses(f.body, path, content) && FilesPass(files, path, content)
    ensures Paths([f] + files) == [f.path] + (MovePaths(f.body) + Paths(files))
  {
    hide BodyOk, BodyPasses, Passes;
    assert ([f] + files)[1..] == files;
    ConsIn(f, files);
  }

  lemma AddReads(s: State, text: string, lines: seq<string>, files: seq<File>, rest: seq<string>, o: string, outs: seq<string>,
                 path: Restorer, content: Restorer)
    requires s.mode.Adding?
    ensures Reads(s, Added([text] + lines), files, ["+" + text] + rest, [o] + outs, path, content) <==>
              && Passes(content, text) && o == "+" + Mended(content, text)
              && Reads(State(Adding(s.mode.lines + 1), s.seen), Added(lines), files, rest, outs, path, content)
  {
    hide FileLines, MendFiles, FilesPass, FilesOk, Fresh, Paths, Passes, Mended;
    AddedCons(text, lines, content);
    ConsIn(text, lines);
    var mended := MendLines(lines, content);
    AddedCons(Mended(content, text), mended, content);
    Onto("+" + text, AddedLines(lines), FileLines(files));
    Heads("+" + text, rest, "+" + text, AddedLines(lines) + FileLines(files));
    var after := FileLines(MendFiles(files, path, content));
    Onto("+" + Mended(content, text), AddedLines(mended), after);
    Heads(o, outs, "+" + Mended(content, text), AddedLines(mended) + after);
    hide AddedLines, MendLines;
  }

  function Going(m: Mode): Mode { if m.Updated? then Updating(0, 0) else m }

  function Grown(m: Mode): Mode
    requires m.Updated? || m.Updating?
  {
    Updating(if Going(m).hunks == 0 then 1 else Going(m).hunks, Going(m).lines + 1)
  }

  /** What follows the changes of a hunk. */
  function Ending(sections: seq<Section>, eof: bool): seq<string> { SectionLines(sections) + if eof then ["*** End of File"] else [] }

  lemma ChangedLines(first: seq<Change>, sections: seq<Section>, eof: bool)
    ensures BodyLines(Changed(None, first, sections, eof)) == ChangeLines(first) + Ending(sections, eof)
  {
    hide ChangeLines, SectionLines;
    var tail := ChangeLines(first) + Ending(sections, eof);
    assert [] + tail == tail;
  }

  lemma MovedLines(move: string, first: seq<Change>, sections: seq<Section>, eof: bool)
    ensures BodyLines(Changed(Some(move), first, sections, eof))
            == ["*** Move to: " + move] + BodyLines(Changed(None, first, sections, eof))
  {
    ChangedLines(first, sections, eof);
    hide ChangeLines, SectionLines;
  }

  lemma ChangeReads(s: State, c: Change, first: seq<Change>, sections: seq<Section>, eof: bool, files: seq<File>,
                    rest: seq<string>, o: string, outs: seq<string>, path: Restorer, content: Restorer)
    requires s.mode.Updated? || s.mode.Updating?
    ensures Reads(s, Changed(None, [c] + first, sections, eof), files, [[c.mark] + c.text] + rest, [o] + outs, path, content) <==>
              && (c.mark == ' ' || c.mark == '+' || c.mark == '-') && Passes(content, c.text) && o == [c.mark] + Mended(content, c.text)
              && Reads(State(Grown(s.mode), s.seen), Changed(None, first, sections, eof), files, rest, outs, path, content)
  {
    hide FileLines, MendFiles, FilesPass, FilesOk, Fresh, Paths, Passes, Mended, SectionOk, SectionPasses;
    ChangesCons(c, first, content);
    var d := Change(c.mark, Mended(content, c.text));
    var mended, after := MendChanges(first, content), MendSections(sections, content);
    ChangesCons(d, mended, content);
    ChangedLines([c] + first, sections, eof);
    ChangedLines(first, sections, eof);
    ChangedLines([d] + mended, after, eof);
    ChangedLines(mended, after, eof);
    ThreeCons([c.mark] + c.text, ChangeLines(first), Ending(sections, eof), FileLines(files), rest, [c.mark] + c.text);
    ThreeCons([d.mark] + d.text, ChangeLines(mended), Ending(after, eof), FileLines(MendFiles(files, path, content)), outs, o);
    hide BodyLines, Ending, ChangeLines, MendChanges, MendSections, ChangesOk, ChangesPass;
  }

  lemma ThreeCons(a: string, x: seq<string>, y: seq<string>, z: seq<string>, rest: seq<string>, o: string)
    ensures [o] + rest == (([a] + x) + y) + z <==> o == a && rest == (x + y) + z
  {
    assert (([a] + x) + y) + z == [a] + ((x + y) + z);
    Heads(o, rest, a, (x + y) + z);
  }

  lemma SectionShape(x: Section, sections: seq<Section>, eof: bool)
    ensures BodyLines(Changed(None, [], [x] + sections, eof)) == ["@@" + x.context] + BodyLines(Changed(None, x.changes, sections, eof))
  {
    ChangedLines([], [x] + sections, eof);
    ChangedLines(x.changes, sections, eof);
    SectionEnding(x, sections, eof);
    assert ChangeLines([]) == [];
    hide BodyLines, Ending, ChangeLines;
    assert [] + Ending([x] + sections, eof) == Ending([x] + sections, eof);
  }

  lemma SectionMends(x: Section, sections: seq<Section>, eof: bool, path: Restorer, content: Restorer)
    ensures MendBody(Changed(None, [], [x] + sections, eof), path, content)
            == Changed(None, [], [Section(Mended(content, x.context), MendChanges(x.changes, content))] + MendSections(sections, content), eof)
    ensures BodyPasses(Changed(None, [], [x] + sections, eof), path, content) <==>
              Passes(content, x.context) && BodyPasses(Changed(None, x.changes, sections, eof), path, content)
    ensures PartOk(Changed(None, [], [x] + sections, eof)) <==>
              (|x.changes| >= 1 && (x.context == "" || x.context[0] == ' ')) && PartOk(Changed(None, x.changes, sections, eof))
  {
    assert MendChanges([], content) == [] && ChangesOk([]) && ChangesPass([], content);
    SectionsCons(x, sections, content);
    hide MendChanges, MendSections, Passes, ChangesOk, ChangesPass, SectionLines;
  }

  lemma SectionReads(s: State, context: string, first: seq<Change>, sections: seq<Section>, eof: bool, files: seq<File>,
                     rest: seq<string>, o: string, outs: seq<string>, path: Restorer, content: Restorer)
    requires s.mode.Updated? || s.mode.Updating?
    requires !(Going(s.mode).hunks > 0 && Going(s.mode).lines == 0)
    ensures Reads(s, Changed(None, [], [Section(context, first)] + sections, eof), files, ["@@" + context] + rest, [o] + outs, path, content) <==>
              && (context == "" || context[0] == ' ') && Passes(content, context) && o == "@@" + Mended(content, context)
              && Reads(State(Updating(Going(s.mode).hunks + 1, 0), s.seen), Changed(None, first, sections, eof), files, rest, outs, path, content)
  {
    var x := Section(context, first);
    var b := Changed(None, first, sections, eof);
    SectionShape(x, sections, eof);
    SectionMends(x, sections, eof, path, content);
    var y := Section(Mended(content, context), MendChanges(first, content));
    SectionShape(y, MendSections(sections, content), eof);
    assert MendBody(b, path, content) == Changed(None, y.changes, MendSections(sections, content), eof);
    hide FileLines, MendFiles, FilesPass, FilesOk, Fresh, Paths, Passes, Mended, BodyLines, MendBody, BodyPasses, PartOk;
    hide MendChanges, MendSections;
    var after := FileLines(MendFiles(files, path, content));
    Onto("@@" + context, BodyLines(b), FileLines(files));
    Onto("@@" + y.context, BodyLines(MendBody(b, path, content)), after);
    Heads("@@" + context, rest, "@@" + context, BodyLines(b) + FileLines(files));
    Heads(o, outs, "@@" + y.context, BodyLines(MendBody(b, path, content)) + after);
  }

  lemma SectionEnding(x: Section, sections: seq<Section>, eof: bool)
    ensures Ending([x] + sections, eof) == ["@@" + x.context] + (ChangeLines(x.changes) + Ending(sections, eof))
  {
    SectionsCons(x, sections, KEEP);
    hide SectionLines, ChangeLines;
  }

  lemma EofReads(s: State, files: seq<File>, rest: seq<string>, o: string, outs: seq<string>, path: Restorer, content: Restorer)
    requires (s.mode.Updated? || s.mode.Updating?) && Closable(s.mode)
    ensures Reads(s, Changed(None, [], [], true), files, ["*** End of File"] + rest, [o] + outs, path, content) <==>
              o == "*** End of File" && Reads(State(Between, s.seen), Deleted, files, rest, outs, path, content)
  {
    hide FileLines, MendFiles, FilesPass, FilesOk, Fresh, Paths;
    var b := Changed(None, [], [], true);
    assert BodyLines(b) == ["*** End of File"] && MendBody(b, path, content) == b;
    var after := FileLines(MendFiles(files, path, content));
    assert BodyLines(Deleted) + FileLines(files) == FileLines(files) && BodyLines(Deleted) + after == after;
    Heads("*** End of File", rest, "*** End of File", FileLines(files));
    Heads(o, outs, "*** End of File", after);
  }

  lemma MoveMends(move: string, first: seq<Change>, sections: seq<Section>, eof: bool, path: Restorer, content: Restorer)
    ensures var b, c := Changed(None, first, sections, eof), Changed(Some(move), first, sections, eof);
            && MendBody(c, path, content) == MendBody(b, path, content).(move := Some(Mended(path, move)))
            && MendBody(b, path, content).Changed? && MendBody(b, path, content).move.None?
            && (BodyPasses(c, path, content) <==> Passes(path, move) && BodyPasses(b, path, content))
            && (PartOk(c) <==> PartOk(b))
  {
    hide MendChanges, MendSections, Passes, Mended, ChangesOk, ChangesPass, SectionOk, SectionPasses;
  }

  lemma MoveReads(s: State, move: string, first: seq<Change>, sections: seq<Section>, eof: bool, files: seq<File>,
                  rest: seq<string>, o: string, outs: seq<string>, path: Restorer, content: Restorer)
    requires s.mode.Updated?
    ensures Reads(s, Changed(Some(move), first, sections, eof), files, ["*** Move to: " + move] + rest, [o] + outs, path, content) <==>
              && Passes(path, move) && Mended(path, move) !in s.seen && o == "*** Move to: " + Mended(path, move)
              && Reads(State(Updating(0, 0), s.seen + {Mended(path, move)}), Changed(None, first, sections, eof), files, rest, outs, path, content)
  {
    MoveMends(move, first, sections, eof, path, content);
    var b := Changed(None, first, sections, eof);
    var p, mended := Mended(path, move), MendBody(b, path, content);
    MovedLines(move, first, sections, eof);
    MovedLines(p, mended.first, mended.sections, mended.eof);
    assert mended == Changed(None, mended.first, mended.sections, mended.eof);
    hide FileLines, MendFiles, FilesPass, FilesOk, Fresh, Paths, Passes, Mended, BodyLines, MendBody, BodyPasses, PartOk;
    var paths, after := Paths(MendFiles(files, path, content)), FileLines(MendFiles(files, path, content));
    FreshCons(p, paths, s.seen);
    assert [] + paths == paths;
    Onto("*** Move to: " + move, BodyLines(b), FileLines(files));
    Onto("*** Move to: " + p, BodyLines(mended), after);
    Heads("*** Move to: " + move, rest, "*** Move to: " + move, BodyLines(b) + FileLines(files));
    Heads(o, outs, "*** Move to: " + p, BodyLines(mended) + after);
  }

  function Begun(b: Body): Mode { match b case Deleted => Between case Added(_) => Adding(0) case Changed(_, _, _, _) => Updated }

  lemma NothingReads(m: Mode, path: Restorer, content: Restorer)
    ensures var b := Nothing(m);
            && BodyLines(b) == [] && MendBody(b, path, content) == b && MovePaths(b) == [] && PartOk(b) && BodyPasses(b, path, content)
            && (Left(m, b) <==> Closable(m))
  {
  }

  lemma HeaderReads(s: State, f: File, files: seq<File>, rest: seq<string>, o: string, outs: seq<string>, path: Restorer, content: Restorer)
    requires Closable(s.mode)
    ensures Reads(s, Nothing(s.mode), [f] + files, [Title(f.body) + f.path] + rest, [o] + outs, path, content) <==>
              && Passes(path, f.path) && Mended(path, f.path) !in s.seen && o == Title(f.body) + Mended(path, f.path)
              && Reads(State(Begun(f.body), s.seen + {Mended(path, f.path)}), f.body, files, rest, outs, path, content)
  {
    NothingReads(s.mode, path, content);
    FilesCons(f, files, path, content);
    var g := File(Mended(path, f.path), MendBody(f.body, path, content));
    var after := MendFiles(files, path, content);
    FilesCons(g, after, path, content);
    FreshCons(g.path, MovePaths(g.body) + Paths(after), s.seen);
    BeginsOk(f.body);
    TitleKept(f.body, path, content);
    var x, y := FileLines([f] + files), FileLines([g] + after);
    assert [] + x == x && [] + y == y && [] + Paths([g] + after) == Paths([g] + after);
    Heads(Title(f.body) + f.path, rest, Title(f.body) + f.path, BodyLines(f.body) + FileLines(files));
    Heads(o, outs, Title(g.body) + g.path, BodyLines(g.body) + FileLines(after));
    hide FileLines, MendFiles, FilesPass, FilesOk, Fresh, Paths, Passes, Mended, BodyLines, MendBody, MovePaths, BodyPasses, PartOk,
      Left, BodyOk, Title, Nothing, Begun, Closable;
  }

  lemma BeginsOk(b: Body)
    ensures BodyOk(b) <==> Left(Begun(b), b) && PartOk(b)
  {
    hide ChangesOk, SectionOk;
  }

  lemma TitleKept(b: Body, path: Restorer, content: Restorer)
    ensures Title(MendBody(b, path, content)) == Title(b)
  {
    hide MendLines, MendChanges, MendSections;
  }

  // ---------- The parser reads what is spelled ----------

  function OpOf(b: Body): Operation { match b case Deleted => Delete case Added(_) => Add case Changed(_, _, _, _) => Update }

  lemma SinglePasses(r: Restorer, text: string)
    ensures Single(r(text)).Some? <==> Passes(r, text)
    ensures Passes(r, text) ==> Single(r(text)).value == Mended(r, text)
  {
  }

  lemma Cut(prefix: string, rest: string)
    ensures Starts(prefix + rest, prefix) && (prefix + rest)[|prefix|..] == rest
  {
  }

  lemma Glue(line: string, prefix: string)
    requires Starts(line, prefix)
    ensures line == prefix + line[|prefix|..]
  {
  }

  lemma HeaderTakes(s: State, b: Body, p: string, path: Restorer)
    ensures var line := Title(b) + p;
            && Marked(line) && line != EOF && !Starts(line, MOVE)
            && HeaderLine(s, line, path)
               == if Passes(path, p) && Mended(path, p) !in s.seen
                  then Some((State(Begun(b), s.seen + {Mended(path, p)}), Title(b) + Mended(path, p), Header(OpOf(b)))) else None
  {
    var line := Title(b) + p;
    assert Title(b) == HeaderText(OpOf(b));
    Cut(Title(b), p);
    OneOperation(OpOf(b), line);
    SinglePasses(path, p);
    hide Passes, Mended, Single, OperationOf, Marked, HunkMark, HeaderText, Title;
  }

  lemma HeaderComes(s: State, line: string, path: Restorer)
    requires HeaderLine(s, line, path).Some?
    ensures forall b | Left(HeaderLine(s, line, path).value.0.mode, b) ::
              var op := OperationOf(line).value;
              op == OpOf(b) && line == Title(b) + line[|HeaderText(op)|..]
  {
    var op := OperationOf(line).value;
    assert Starts(line, HeaderText(op));
    Glue(line, HeaderText(op));
    hide Single, Starts, PartOk;
    forall b | Left(HeaderLine(s, line, path).value.0.mode, b)
      ensures op == OpOf(b) && HeaderText(op) == Title(b)
    {
    }
  }

  lemma AddTakes(s: State, text: string, path: Restorer, content: Restorer)
    requires s.mode.Adding?
    ensures var step := Step(s, "+" + text, path, content);
            if Passes(content, text)
            then step == Some((State(Adding(s.mode.lines + 1), s.seen), "+" + Mended(content, text), Content('+')))
            else step.None?
  {
    var line := "+" + text;
    assert line[..1] == "+" && line[1..] == text && line[0] == '+';
    assert !Marked(line) by { assert "*** "[0] == '*'; }
    SinglePasses(content, text);
    hide Single, Passes, Mended, Marked, Starts;
  }

  lemma ChangeTakes(s: State, c: Change, path: Restorer, content: Restorer)
    requires s.mode.Updated? || s.mode.Updating?
    requires c.mark == ' ' || c.mark == '+' || c.mark == '-'
    ensures var step := Step(s, [c.mark] + c.text, path, content);
            if Passes(content, c.text)
            then step == Some((State(Grown(s.mode), s.seen), [c.mark] + Mended(content, c.text), Content(c.mark)))
            else step.None?
  {
    var line := [c.mark] + c.text;
    assert line[..1] == [c.mark] && line[1..] == c.text && line[0] == c.mark;
    assert "*** "[0] == '*' && MOVE[0] == '*' && "@@"[0] == '@' && "@@ "[0] == '@';
    assert !Marked(line) && !Starts(line, MOVE) && !HunkMark(line);
    SinglePasses(content, c.text);
    hide Single, Passes, Mended, Marked, Starts, HunkMark;
  }

  lemma SectionTakes(s: State, context: string, path: Restorer, content: Restorer)
    requires s.mode.Updated? || s.mode.Updating?
    requires !(Going(s.mode).hunks > 0 && Going(s.mode).lines == 0)
    requires context == "" || context[0] == ' '
    ensures var step := Step(s, "@@" + context, path, content);
            if Passes(content, context)
            then step == Some((State(Updating(Going(s.mode).hunks + 1, 0), s.seen), "@@" + Mended(content, context), Hunk))
            else step.None?
  {
    HunkOut(context);
    SinglePasses(content, context);
    hide Single, Passes, Mended, Marked, Starts, HunkMark;
  }

  lemma MoveTakes(s: State, move: string, path: Restorer, content: Restorer)
    requires s.mode.Updated?
    ensures var step := Step(s, "*** Move to: " + move, path, content);
            if Passes(path, move) && Mended(path, move) !in s.seen
            then step == Some((State(Updating(0, 0), s.seen + {Mended(path, move)}), "*** Move to: " + Mended(path, move), Moved))
            else step.None?
  {
    Cut("*** Move to: ", move);
    SinglePasses(path, move);
    hide Single, Passes, Mended, Starts;
  }

  lemma EofTakes(s: State, path: Restorer, content: Restorer)
    requires (s.mode.Updated? || s.mode.Updating?) && Closable(s.mode)
    ensures Step(s, "*** End of File", path, content) == Some((State(Between, s.seen), "*** End of File", Ended))
  {
    EofIsMarked();
    hide Marked, Starts;
  }

  lemma HeaderFirst(s: State, line: string, o: string, b: Body, files: seq<File>, rest: seq<string>, outs: seq<string>,
                    path: Restorer, content: Restorer) returns (f: File)
    requires Closable(s.mode) && HeaderLine(s, line, path).Some? && HeaderLine(s, line, path).value.1 == o
    requires Reads(HeaderLine(s, line, path).value.0, b, files, rest, outs, path, content)
    ensures Reads(s, Nothing(s.mode), [f] + files, [line] + rest, [o] + outs, path, content)
  {
    HeaderComes(s, line, path);
    assert Left(HeaderLine(s, line, path).value.0.mode, b);
    hide Reads, HeaderLine, Passes, Mended, Closable, Left;
    var p := line[|HeaderText(OperationOf(line).value)|..];
    HeaderTakes(s, b, p, path);
    f := File(p, b);
    HeaderReads(s, f, files, rest, o, outs, path, content);
  }

  lemma InsideFirst(s: State, line: string, next: State, o: string, b: Body, files: seq<File>, rest: seq<string>, outs: seq<string>,
                    path: Restorer, content: Restorer) returns (r: Body)
    requires !s.mode.Between? && !Marked(line)
    requires Step(s, line, path, content).Some? && Step(s, line, path, content).value.0 == next && Step(s, line, path, content).value.1 == o
    requires Reads(next, b, files, rest, outs, path, content)
    ensures Reads(s, r, files, [line] + rest, [o] + outs, path, content)
  {
    var mode := Going(s.mode);
    assert Left(next.mode, b);
    NoMove(line);
    hide Reads, Passes, Mended, Marked, Starts, TextLine;
    if mode.Updating? && HunkMark(line) {
      var context := line[2..];
      HunkSpelled(line);
      hide HunkMark;
      SectionTakes(s, context, path, content);
      r := Changed(None, [], [Section(context, b.first)] + b.sections, b.eof);
      SectionReads(s, context, b.first, b.sections, b.eof, files, rest, o, outs, path, content);
    } else if mode.Adding? {
      assert line == "+" + line[1..];
      AddTakes(s, line[1..], path, content);
      r := Added([line[1..]] + b.lines);
      AddReads(s, line[1..], b.lines, files, rest, o, outs, path, content);
    } else {
      var c := Change(line[0], line[1..]);
      assert line == [c.mark] + c.text;
      ChangeTakes(s, c, path, content);
      r := Changed(None, [c] + b.first, b.sections, b.eof);
      ChangeReads(s, c, b.first, b.sections, b.eof, files, rest, o, outs, path, content);
    }
  }

  lemma NoMove(line: string)
    requires !Marked(line)
    ensures !Starts(line, MOVE) && line != EOF
  {
    assert MOVE[..4] == "*** " && EOF[..4] == "*** ";
  }

  lemma HunkSpelled(line: string)
    requires HunkMark(line)
    ensures |line| >= 2 && line == "@@" + line[2..] && (line[2..] == "" || line[2..][0] == ' ')
  {
    if line != "@@" {
      assert line[..3] == "@@ ";
      assert line[..2] == line[..3][..2];
    }
  }

  /** One accepted line goes in front of what is left. */
  lemma LineFirst(s: State, line: string, next: State, o: string, b: Body, files: seq<File>, rest: seq<string>, outs: seq<string>,
                  path: Restorer, content: Restorer) returns (r: Body, more: seq<File>)
    requires Step(s, line, path, content).Some? && Step(s, line, path, content).value.0 == next && Step(s, line, path, content).value.1 == o
    requires Reads(next, b, files, rest, outs, path, content)
    ensures Reads(s, r, more, [line] + rest, [o] + outs, path, content)
  {
    more := files;
    if !s.mode.Between? && !Marked(line) {
      r := InsideFirst(s, line, next, o, b, files, rest, outs, path, content);
    } else if s.mode.Updated? && Starts(line, MOVE) {
      assert Left(next.mode, b);
      Glue(line, MOVE);
      hide Reads, Passes, Mended, Marked, Starts;
      var move := line[|MOVE|..];
      MoveTakes(s, move, path, content);
      r := Changed(Some(move), b.first, b.sections, b.eof);
      MoveReads(s, move, b.first, b.sections, b.eof, files, rest, o, outs, path, content);
    } else if Going(s.mode).Updating? && line == EOF {
      assert Left(next.mode, b);
      EofReads(s, files, rest, o, outs, path, content);
      r := Changed(None, [], [], true);
    } else {
      hide Reads, HeaderLine, Marked, Starts;
      r := Nothing(s.mode);
      var f := HeaderFirst(s, line, o, b, files, rest, outs, path, content);
      more := [f] + files;
    }
  }

  lemma {:induction false} ChangesSize(changes: seq<Change>, r: Restorer)
    ensures |ChangeLines(MendChanges(changes, r))| == |ChangeLines(changes)|
  {
    if changes != [] { ChangesSize(changes[1..], r); }
  }

  lemma {:induction false} SectionsSize(sections: seq<Section>, r: Restorer)
    ensures |SectionLines(MendSections(sections, r))| == |SectionLines(sections)|
  {
    if sections != [] {
      ChangesSize(sections[0].changes, r);
      SectionsSize(sections[1..], r);
    }
  }

  lemma {:induction false} AddedSize(lines: seq<string>, r: Restorer)
    ensures |AddedLines(MendLines(lines, r))| == |AddedLines(lines)|
  {
    if lines != [] { AddedSize(lines[1..], r); }
  }

  lemma BodySize(b: Body, path: Restorer, content: Restorer)
    ensures |BodyLines(MendBody(b, path, content))| == |BodyLines(b)|
  {
    if b.Added? { AddedSize(b.lines, content); }
    if b.Changed? {
      ChangesSize(b.first, content);
      SectionsSize(b.sections, content);
    }
    hide AddedLines, MendLines, ChangeLines, MendChanges, SectionLines, MendSections;
  }

  lemma {:induction false} FilesSize(files: seq<File>, path: Restorer, content: Restorer)
    ensures |FileLines(MendFiles(files, path, content))| == |FileLines(files)|
  {
    if files != [] {
      BodySize(files[0].body, path, content);
      hide BodyLines, MendBody;
      FilesSize(files[1..], path, content);
    }
  }

  lemma SameSize(s: State, b: Body, files: seq<File>, lines: seq<string>, outs: seq<string>, path: Restorer, content: Restorer)
    requires Reads(s, b, files, lines, outs, path, content)
    ensures |outs| == |lines|
  {
    BodySize(b, path, content);
    FilesSize(files, path, content);
  }

  /** What is left of a file starts with one of these lines, or is over. */
  lemma BodyShapes(b: Body)
    ensures b.Added? && b.lines != [] ==> BodyLines(b) != [] && BodyLines(b)[0] == "+" + b.lines[0]
    ensures b.Changed? && b.move.Some? ==> BodyLines(b) != [] && BodyLines(b)[0] == "*** Move to: " + b.move.value
    ensures b.Changed? && b.move.None? && b.first != [] ==>
              BodyLines(b) != [] && BodyLines(b)[0] == [b.first[0].mark] + b.first[0].text
    ensures b.Changed? && b.move.None? && b.first == [] && b.sections != [] ==>
              BodyLines(b) != [] && BodyLines(b)[0] == "@@" + b.sections[0].context
    ensures b == Changed(None, [], [], true) ==> BodyLines(b) == ["*** End of File"]
    ensures BodyLines(b) == [] <==> b.Deleted? || (b.Added? && b.lines == []) || b == Changed(None, [], [], false)
  {
  }

  lemma FileShapes(files: seq<File>)
    ensures FileLines(files) != [] <==> files != []
    ensures files != [] ==> FileLines(files)[0] == Title(files[0].body) + files[0].path
  {
    hide BodyLines, Title;
  }

  lemma Over(s: State, b: Body)
    requires Left(s.mode, b) && BodyLines(b) == []
    ensures b == Nothing(s.mode) && Closable(s.mode)
  {
    BodyShapes(b);
    hide BodyLines;
  }

  lemma PartMarks(b: Body)
    requires PartOk(b) && b.Changed?
    ensures b.first != [] ==> b.first[0].mark == ' ' || b.first[0].mark == '+' || b.first[0].mark == '-'
    ensures b.sections != [] ==> b.sections[0].context == "" || b.sections[0].context[0] == ' '
  {
    assert b.first != [] ==> b.first[0] in b.first;
    assert b.sections != [] ==> SectionOk(b.sections[0]);
  }

  lemma FirstLine(s: State, b: Body, files: seq<File>, line: string, rest: seq<string>, outs: seq<string>, path: Restorer, content: Restorer)
    requires Reads(s, b, files, [line] + rest, outs, path, content)
    ensures BodyLines(b) != [] ==> line == BodyLines(b)[0]
    ensures BodyLines(b) == [] ==> FileLines(files) != [] && line == FileLines(files)[0]
    ensures Left(s.mode, b) && PartOk(b)
  {
    var all := BodyLines(b) + FileLines(files);
    assert line == all[0];
    hide FileLines, BodyLines, Fresh, MendBody, MendFiles, FilesPass, FilesOk, BodyPasses, Left, PartOk;
  }

  /** The first line of what is left, by what is left. */
  lemma HeadLine(s: State, b: Body, files: seq<File>, line: string, rest: seq<string>, outs: seq<string>, path: Restorer, content: Restorer)
    requires Reads(s, b, files, [line] + rest, outs, path, content)
    ensures b.Added? && b.lines != [] ==> line == "+" + b.lines[0]
    ensures b.Changed? && b.move.Some? ==> line == "*** Move to: " + b.move.value
    ensures b.Changed? && b.move.None? && b.first != [] ==>
              line == [b.first[0].mark] + b.first[0].text && (b.first[0].mark == ' ' || b.first[0].mark == '+' || b.first[0].mark == '-')
    ensures b.Changed? && b.move.None? && b.first == [] && b.sections != [] ==>
              line == "@@" + b.sections[0].context && (b.sections[0].context == "" || b.sections[0].context[0] == ' ')
    ensures b == Changed(None, [], [], true) ==> line == "*** End of File"
    ensures Left(s.mode, b)
  {
    FirstLine(s, b, files, line, rest, outs, path, content);
    BodyShapes(b);
    hide Reads, BodyLines, FileLines, PartOk, Left;
    if b.Changed? {
      PartMarks(b);
    }
  }

  lemma MoveGone(s: State, b: Body, files: seq<File>, line: string, rest: seq<string>, o: string, outs: seq<string>,
                 path: Restorer, content: Restorer) returns (r: Body)
    requires Reads(s, b, files, [line] + rest, [o] + outs, path, content)
    requires b.Changed? && b.move.Some?
    ensures Step(s, line, path, content).Some? && Step(s, line, path, content).value.1 == o
    ensures Reads(Step(s, line, path, content).value.0, r, files, rest, outs, path, content)
  {
    HeadLine(s, b, files, line, rest, [o] + outs, path, content);
    hide Reads, Passes, Mended, BodyLines, Step, PartOk, FileLines;
    r := Changed(None, b.first, b.sections, b.eof);
    assert b == Changed(Some(b.move.value), b.first, b.sections, b.eof);
    MoveReads(s, b.move.value, b.first, b.sections, b.eof, files, rest, o, outs, path, content);
    MoveTakes(s, b.move.value, path, content);
  }

  lemma ChangeGone(s: State, b: Body, files: seq<File>, line: string, rest: seq<string>, o: string, outs: seq<string>,
                 path: Restorer, content: Restorer) returns (r: Body)
    requires Reads(s, b, files, [line] + rest, [o] + outs, path, content)
    requires b.Changed? && b.move.None? && b.first != []
    ensures Step(s, line, path, content).Some? && Step(s, line, path, content).value.1 == o
    ensures Reads(Step(s, line, path, content).value.0, r, files, rest, outs, path, content)
  {
    HeadLine(s, b, files, line, rest, [o] + outs, path, content);
    hide Reads, Passes, Mended, BodyLines, Step, PartOk, FileLines, Grown;
    var c, others := b.first[0], b.first[1..];
    r := Changed(None, others, b.sections, b.eof);
    assert b.first == [c] + others;
    assert b == Changed(None, [c] + others, b.sections, b.eof);
    ChangeReads(s, c, others, b.sections, b.eof, files, rest, o, outs, path, content);
    ChangeTakes(s, c, path, content);
  }

  lemma EofGone(s: State, b: Body, files: seq<File>, line: string, rest: seq<string>, o: string, outs: seq<string>,
                 path: Restorer, content: Restorer) returns (r: Body)
    requires Reads(s, b, files, [line] + rest, [o] + outs, path, content)
    requires b == Changed(None, [], [], true)
    ensures Step(s, line, path, content).Some? && Step(s, line, path, content).value.1 == o
    ensures Reads(Step(s, line, path, content).value.0, r, files, rest, outs, path, content)
  {
    HeadLine(s, b, files, line, rest, [o] + outs, path, content);
    LeftClosable(s.mode, b);
    hide Reads, BodyLines, Step, PartOk, FileLines, Closable;
    r := Deleted;
    EofReads(s, files, rest, o, outs, path, content);
    EofTakes(s, path, content);
  }

  lemma ChangedGone(s: State, b: Body, files: seq<File>, line: string, rest: seq<string>, o: string, outs: seq<string>,
                 path: Restorer, content: Restorer) returns (r: Body)
    requires Reads(s, b, files, [line] + rest, [o] + outs, path, content)
    requires b.Changed? && b != Changed(None, [], [], false)
    ensures Step(s, line, path, content).Some? && Step(s, line, path, content).value.1 == o
    ensures Reads(Step(s, line, path, content).value.0, r, files, rest, outs, path, content)
  {
    hide Reads, Step;
    if b.move.Some? {
      r := MoveGone(s, b, files, line, rest, o, outs, path, content);
    } else if b.first != [] {
      r := ChangeGone(s, b, files, line, rest, o, outs, path, content);
    } else if b.sections != [] {
      r := SectionGone(s, b, files, line, rest, o, outs, path, content);
    } else {
      r := EofGone(s, b, files, line, rest, o, outs, path, content);
    }
  }

  lemma LeftClosable(m: Mode, b: Body)
    requires Left(m, b) && b.Changed? && b.move.None? && b.first == []
    ensures Closable(m) && !(Going(m).hunks > 0 && Going(m).lines == 0)
  {
  }

  lemma SectionGone(s: State, b: Body, files: seq<File>, line: string, rest: seq<string>, o: string, outs: seq<string>,
                 path: Restorer, content: Restorer) returns (r: Body)
    requires Reads(s, b, files, [line] + rest, [o] + outs, path, content)
    requires b.Changed? && b.move.None? && b.first == [] && b.sections != []
    ensures Step(s, line, path, content).Some? && Step(s, line, path, content).value.1 == o
    ensures Reads(Step(s, line, path, content).value.0, r, files, rest, outs, path, content)
  {
    HeadLine(s, b, files, line, rest, [o] + outs, path, content);
    LeftClosable(s.mode, b);
    hide Reads, Passes, Mended, BodyLines, Step, PartOk, FileLines, Going, Closable;
    var x, others := b.sections[0], b.sections[1..];
    r := Changed(None, x.changes, others, b.eof);
    assert b.sections == [Section(x.context, x.changes)] + others;
    assert b == Changed(None, [], [Section(x.context, x.changes)] + others, b.eof);
    SectionReads(s, x.context, x.changes, others, b.eof, files, rest, o, outs, path, content);
    SectionTakes(s, x.context, path, content);
    hide Left;
  }

  lemma AddGone(s: State, b: Body, files: seq<File>, line: string, rest: seq<string>, o: string, outs: seq<string>,
                 path: Restorer, content: Restorer) returns (r: Body)
    requires Reads(s, b, files, [line] + rest, [o] + outs, path, content)
    requires b.Added? && b.lines != []
    ensures Step(s, line, path, content).Some? && Step(s, line, path, content).value.1 == o
    ensures Reads(Step(s, line, path, content).value.0, r, files, rest, outs, path, content)
  {
    HeadLine(s, b, files, line, rest, [o] + outs, path, content);
    hide Reads, Passes, Mended, BodyLines, Step, PartOk, FileLines;
    r := Added(b.lines[1..]);
    assert b == Added([b.lines[0]] + b.lines[1..]);
    AddReads(s, b.lines[0], b.lines[1..], files, rest, o, outs, path, content);
    AddTakes(s, b.lines[0], path, content);
  }

  lemma LineGone(s: State, b: Body, files: seq<File>, line: string, rest: seq<string>, o: string, outs: seq<string>,
                 path: Restorer, content: Restorer) returns (r: Body, more: seq<File>)
    requires Reads(s, b, files, [line] + rest, [o] + outs, path, content)
    ensures Step(s, line, path, content).Some? && Step(s, line, path, content).value.1 == o
    ensures Reads(Step(s, line, path, content).value.0, r, more, rest, outs, path, content)
  {
    FirstLine(s, b, files, line, rest, [o] + outs, path, content);
    BodyShapes(b);
    hide Reads, Passes, Mended, BodyLines, Title, Step, PartOk, FileLines, Closable, Nothing;
    more := files;
    if b.Added? && b.lines != [] {
      r := AddGone(s, b, files, line, rest, o, outs, path, content);
    } else if b.Changed? && b != Changed(None, [], [], false) {
      r := ChangedGone(s, b, files, line, rest, o, outs, path, content);
    } else {
      Over(s, b);
      FileShapes(files);
      r, more := HeaderGone(s, b, files, line, rest, o, outs, path, content);
    }
  }

  lemma HeaderGone(s: State, b: Body, files: seq<File>, line: string, rest: seq<string>, o: string, outs: seq<string>,
                   path: Restorer, content: Restorer) returns (r: Body, more: seq<File>)
    requires Reads(s, b, files, [line] + rest, [o] + outs, path, content)
    requires b == Nothing(s.mode) && Closable(s.mode) && files != [] && line == Title(files[0].body) + files[0].path
    ensures Step(s, line, path, content).Some? && Step(s, line, path, content).value.1 == o
    ensures Reads(Step(s, line, path, content).value.0, r, more, rest, outs, path, content)
  {
    hide Reads, Passes, Mended, Marked, Starts, HeaderLine, TextLine, Title, Nothing, Begun;
    var f := files[0];
    r, more := f.body, files[1..];
    assert files == [f] + more;
    HeaderReads(s, f, more, rest, o, outs, path, content);
    HeaderTakes(s, f.body, f.path, path);
  }

  lemma NothingMore(s: State, b: Body, files: seq<File>, outs: seq<string>, path: Restorer, content: Restorer)
    requires Reads(s, b, files, [], outs, path, content)
    ensures Closable(s.mode) && outs == []
  {
    SameSize(s, b, files, [], outs, path, content);
    assert Left(s.mode, b) && BodyLines(b) == [];
    hide Reads, BodyLines;
    Over(s, b);
  }

  lemma NothingLeft(s: State, path: Restorer, content: Restorer)
    requires Closable(s.mode)
    ensures Reads(s, Nothing(s.mode), [], [], [], path, content)
  {
    NothingReads(s.mode, path, content);
    hide BodyLines, MendBody, MovePaths, PartOk, BodyPasses, Left, Nothing, Closable;
  }

  /** The machine accepts the rest of a body exactly when it spells the rest of a file and further files. */
  lemma {:induction false} RunReads(s: State, lines: seq<string>, outs: seq<string>, path: Restorer, content: Restorer)
    ensures (exists kinds :: Run(s, lines, path, content) == Some((outs, kinds)))
            <==> exists b, files :: Reads(s, b, files, lines, outs, path, content)
    decreases |lines|
  {
    hide Reads, Step, Closable;
    if lines == [] {
      if b, files :| Reads(s, b, files, [], outs, path, content) {
        NothingMore(s, b, files, outs, path, content);
      }
      if Closable(s.mode) {
        NothingLeft(s, path, content);
        assert Run(s, lines, path, content) == Some(([], []));
      }
    } else {
      var line, rest := lines[0], lines[1..];
      assert lines == [line] + rest;
      var step := Step(s, line, path, content);
      if kinds :| Run(s, lines, path, content) == Some((outs, kinds)) {
        assert Run(step.value.0, rest, path, content) == Some((outs[1..], kinds[1..]));
        RunReads(step.value.0, rest, outs[1..], path, content);
        var b, files :| Reads(step.value.0, b, files, rest, outs[1..], path, content);
        var r, more := LineFirst(s, line, step.value.0, outs[0], b, files, rest, outs[1..], path, content);
        assert outs == [outs[0]] + outs[1..];
      }
      if b, files :| Reads(s, b, files, lines, outs, path, content) {
        SameSize(s, b, files, lines, outs, path, content);
        assert outs == [outs[0]] + outs[1..];
        var r, more := LineGone(s, b, files, line, rest, outs[0], outs[1..], path, content);
        RunReads(step.value.0, rest, outs[1..], path, content);
        var kinds :| Run(step.value.0, rest, path, content) == Some((outs[1..], kinds));
        assert Run(s, lines, path, content) == Some((outs, [step.value.2] + kinds));
      }
    }
  }

  // ---------- Whole patches ----------

  /** A patch spells a document, each of its texts comes back on one line and no path twice; the other text spells the
      restored document. */
  ghost predicate Restores(files: seq<File>, newline: bool, patch: string, restored: string, path: Restorer, content: Restorer) {
    && |files| >= 1 && FilesOk(files) && (forall line | line in FileLines(files) :: OneLine(line))
    && patch == Document(files, newline)
    && FilesPass(files, path, content) && Fresh(Paths(MendFiles(files, path, content)), {})
    && restored == Document(MendFiles(files, path, content), newline)
  }

  lemma StartReads(files: seq<File>, lines: seq<string>, outs: seq<string>, path: Restorer, content: Restorer)
    ensures Reads(Patches.START, Deleted, files, lines, outs, path, content) <==>
              && FilesOk(files) && lines == FileLines(files) && FilesPass(files, path, content)
              && Fresh(Paths(MendFiles(files, path, content)), {}) && outs == FileLines(MendFiles(files, path, content))
  {
    hide FilesOk, FilesPass, Fresh, Paths, MendFiles, FileLines;
    var paths := Paths(MendFiles(files, path, content));
    assert [] + paths == paths;
    assert forall x: seq<string> :: [] + x == x;
  }

  lemma FoundDocument(patch: string, restored: string, kinds: seq<Kind>, path: Restorer, content: Restorer)
    requires Rebuild(patch, path, content) == Some((restored, kinds))
    ensures exists files, newline :: Restores(files, newline, patch, restored, path, content)
  {
    hide Run, Reads, Restores, JoinLines, FilesOk, FilesPass, Fresh, Paths, MendFiles, FileLines, Split, OneLine;
    NonEmptyPatch(patch);
    var lines := LinesOf(patch);
    var body := Patches.Body(lines);
    var (outs, _) := Run(Patches.START, body, path, content).value;
    RunReads(Patches.START, body, outs, path, content);
    var b, files :| Reads(Patches.START, b, files, body, outs, path, content);
    OnlyFiles(b, files, body, outs, path, content);
    StartReads(files, body, outs, path, content);
    BodyOneLine(patch);
    LastLine(patch);
    assert lines == [BEGIN] + body + [END];
    FileShapes(files);
    var newline := patch[|patch| - 1] == '\n';
    assert Document(files, newline) == patch;
    assert Restores(files, newline, patch, restored, path, content) by {
      RestoresAll(files, newline, patch, restored, path, content);
    }
  }

  lemma OnlyFiles(b: Body, files: seq<File>, lines: seq<string>, outs: seq<string>, path: Restorer, content: Restorer)
    requires Reads(Patches.START, b, files, lines, outs, path, content)
    ensures b == Deleted
  {
    hide PartOk, FilesOk, FilesPass, Fresh, BodyLines, BodyPasses;
  }

  lemma RestoresAll(files: seq<File>, newline: bool, patch: string, restored: string, path: Restorer, content: Restorer)
    requires |files| >= 1 && FilesOk(files) && AllOneLine(FileLines(files)) && patch == Document(files, newline)
    requires FilesPass(files, path, content) && Fresh(Paths(MendFiles(files, path, content)), {})
    requires restored == Document(MendFiles(files, path, content), newline)
    ensures Restores(files, newline, patch, restored, path, content)
  {
    hide FilesOk, FilesPass, Fresh, Paths, MendFiles, FileLines, Document, OneLine;
  }

  lemma DocumentRebuilds(files: seq<File>, newline: bool, patch: string, restored: string, path: Restorer, content: Restorer)
    requires Restores(files, newline, patch, restored, path, content)
    ensures exists kinds :: Rebuild(patch, path, content) == Some((restored, kinds))
  {
    hide Run, Reads, JoinLines, FilesOk, FilesPass, Fresh, Paths, MendFiles, FileLines, Split, OneLine;
    var lines, outs := FileLines(files), FileLines(MendFiles(files, path, content));
    FileShapes(files);
    EnvelopeBack(lines, newline);
    StartReads(files, lines, outs, path, content);
    RunReads(Patches.START, lines, outs, path, content);
    var kinds :| Run(Patches.START, lines, path, content) == Some((outs, kinds));
    assert Rebuild(patch, path, content) == Some((restored, kinds));
  }

  /** The parser accepts exactly the spelled documents whose every text comes back on one line, with no path written twice,
      and gives back the restored document. */
  lemma RebuildExactly(patch: string, restored: string, path: Restorer, content: Restorer)
    ensures (exists kinds :: Rebuild(patch, path, content) == Some((restored, kinds))) <==>
            exists files, newline :: Restores(files, newline, patch, restored, path, content)
  {
    hide Rebuild, Restores;
    if kinds :| Rebuild(patch, path, content) == Some((restored, kinds)) {
      FoundDocument(patch, restored, kinds, path, content);
    }
    if files, newline :| Restores(files, newline, patch, restored, path, content) {
      DocumentRebuilds(files, newline, patch, restored, path, content);
    }
  }
}

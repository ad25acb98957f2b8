/** Restoring a patch with the restoration engine: what it rebuilds always passes the registry's second pass. */
module PatchRestoration {
  import opened Tokens
  import opened TokenGrammar
  import opened Restoration
  import opened Patches

  /** Restoring a text touches no first character but an opening bracket. */
  lemma LeadStays(text: string, auth: Authority)
    ensures text == "" ==> Restored(text, auth) == ""
    ensures text != "" && text[0] != '<' ==> Restored(text, auth) != "" && Restored(text, auth)[0] == text[0]
  {
    hide IsToken, TokenPrefix;
    if text != "" && text[0] != '<' {
      NoTokenHere(text);
      LexStep(text);
      ConsPiece(text[..1], Lex(text[1..]), auth);
      ShortIsPlain(text[..1], auth);
    }
  }

  lemma NoTokenHere(text: string)
    requires text != "" && text[0] != '<'
    ensures TokenPrefix(text) == 0
  {
    hide IsToken;
    if TokenPrefix(text) > 0 {
      TokenBrackets(text[..TokenPrefix(text)], 0);
    }
  }

  /** Only a hunk's own line is read as one. */
  lemma HunkOnly(s: State, line: string, path: Restorer, content: Restorer)
    requires Step(s, line, path, content).Some? && Step(s, line, path, content).value.2.Hunk?
    ensures HunkMark(line)
  {
    hide HunkMark, Marked, Starts, ContentLine;
  }

  lemma {:induction false} HunksOnly(s: State, lines: seq<string>, path: Restorer, content: Restorer)
    requires Run(s, lines, path, content).Some?
    ensures var kinds := Run(s, lines, path, content).value.1;
            |kinds| == |lines| && forall k | 0 <= k < |kinds| && kinds[k].Hunk? :: HunkMark(lines[k])
    decreases |lines|
  {
    hide Step, HunkMark;
    if lines != [] {
      var (next, _, kind) := Step(s, lines[0], path, content).value;
      HunksOnly(next, lines[1..], path, content);
      if kind.Hunk? {
        HunkOnly(s, lines[0], path, content);
      }
    }
  }

  /** Each text is restored as the engine restores it, or refused. */
  ghost predicate RestoresWith(content: Restorer, auth: Authority) {
    forall x, y | content(x) == Some(y) :: y == Restored(x, auth)
  }

  lemma HunkKept(line: string, content: Restorer, auth: Authority)
    requires HunkMark(line) && RestoresWith(content, auth)
    ensures ContextKept(line, content)
  {
    hide Restored;
    if line != "@@" {
      assert line[..3] == "@@ ";
      assert line[2] == "@@ "[2];
    }
    if content(line[2..]).Some? {
      LeadStays(line[2..], auth);
    }
  }

  /** With the engine behind the restorers, the second pass accepts every rebuilt patch and reads the same skeleton. */
  lemma RestoredParsesAgain(patch: string, path: Restorer, content: Restorer, path': Restorer, auth: Authority)
    requires Rebuild(patch, path, content).Some?
    requires RestoresWith(content, auth) && Settles(path, path')
    ensures var (text, kinds) := Rebuild(patch, path, content).value;
            Rebuild(text, path', KEEP) == Some((text, kinds))
  {
    var body := Body(LinesOf(patch));
    var kinds := Run(START, body, path, content).value.1;
    assert Rebuild(patch, path, content).value.1 == kinds;
    HunksOnly(START, body, path, content);
    hide Run, Split, HunkMark, ContextKept, RestoresWith, Rebuild;
    forall k | 0 <= k < |kinds| && kinds[k].Hunk?
      ensures ContextKept(body[k], content)
    {
      HunkKept(body[k], content, auth);
    }
    assert Settles(content, KEEP);
    RebuiltParsesAgain(patch, path, content, path', KEEP);
  }
}

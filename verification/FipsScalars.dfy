/** What the inserted bootstrap does to every other setting: nothing. */
module FipsScalars {
  import opened FipsBootstrap
  import opened FipsConfig
  import opened FipsIdempotence
  import opened FipsText

  /** The block as separate lines. */
  function BlockLines(npub: string, newline: string): seq<string> {
    WithBreaks([Header(npub)] + Details(), newline)
  }

  lemma BlockIsEnded(npub: string, newline: string)
    ensures Block(npub, newline) == Ended([Header(npub)] + Details(), newline)
  {
    hide Header, Details;
    assert ([Header(npub)] + Details())[1..] == Details();
  }

  predicate IsBlockLine(line: string) {
    line != "" && line[0] == ' ' && Unbroken(line)
  }

  lemma DetailIsBlockLine(line: string)
    requires IsDetail(line)
    ensures IsBlockLine(line)
  {
    hide Unbroken;
    assert line[..4][0] == ' ';
  }

  lemma HeaderIsBlockLine(npub: string)
    requires IsNpub(npub)
    ensures IsBlockLine(Header(npub))
  {
    HeaderHasNoNewline(npub);
    hide Unbroken;
  }

  /** The lines of the block: unbroken, and indented. */
  lemma BlockLinesAreLines(npub: string)
    requires IsNpub(npub)
    ensures forall line <- [Header(npub)] + Details() :: IsBlockLine(line)
  {
    hide Header, Details, IsDetail, IsBlockLine;
    HeaderIsBlockLine(npub);
    DetailsAreDetails();
    forall line <- Details() ensures IsBlockLine(line) {
      DetailIsBlockLine(line);
    }
  }

  ghost predicate NoneAtMargin(lines: seq<string>) {
    forall line <- lines :: ParseLine(line).Some? ==> ParseLine(line).value.indent > 0
  }

  lemma IndentedLine(line: string, newline: string)
    requires IsBlockLine(line)
    ensures ParseLine(line + newline).Some? ==> ParseLine(line + newline).value.indent > 0
  {
    hide Strip, StripStart, FirstIndex;
    assert (line + newline)[0] == ' ';
  }

  lemma {:induction false} WithBreaksIndented(lines: seq<string>, newline: string)
    requires forall line <- lines :: IsBlockLine(line)
    ensures NoneAtMargin(WithBreaks(lines, newline))
  {
    hide IsBlockLine, ParseLine;
    if lines != [] {
      assert lines[0] in lines && forall line <- lines[1..] :: line in lines;
      IndentedLine(lines[0], newline);
      WithBreaksIndented(lines[1..], newline);
    }
  }

  lemma LinesUnbroken(lines: seq<string>)
    requires forall line <- lines :: IsBlockLine(line)
    ensures forall line <- lines :: Unbroken(line)
  {
    hide Unbroken;
  }

  lemma BlockSplitsIntoLines(npub: string, newline: string, rest: string)
    requires IsNpub(npub) && IsNewline(newline)
    ensures SplitLines(Block(npub, newline) + rest) == BlockLines(npub, newline) + SplitLines(rest)
    ensures NoneAtMargin(BlockLines(npub, newline))
  {
    hide Header, Details, Block, SplitLines, Ended, WithBreaks, IsBlockLine, NoneAtMargin, Unbroken, IsNewline;
    BlockLinesAreLines(npub);
    BlockIsEnded(npub, newline);
    LinesUnbroken([Header(npub)] + Details());
    SplitEnded([Header(npub)] + Details(), newline, rest);
    WithBreaksIndented([Header(npub)] + Details(), newline);
  }

  // ----- the edited line stays the top-level key `peers` -----

  /** The line says `peers:` first. */
  predicate SaysPeers(line: string) {
    |Strip(line)| >= 6 && Strip(line)[..6] == "peers:"
  }

  lemma {:induction false} StripStartAppend(line: string, more: string)
    requires StripStart(line) != ""
    ensures StripStart(line + more) == StripStart(line) + more
  {
    hide IsSpace, AllSpace;
    assert (line + more)[0] == line[0];
    if IsSpace(line[0]) {
      assert (line + more)[1..] == line[1..] + more;
      StripStartAppend(line[1..], more);
    }
  }

  lemma SpaceSuffix(s: string, k: nat, j: nat)
    requires k <= j < |s| && AllSpace(s[k..])
    ensures IsSpace(s[j])
  {
    SpaceAt(s[k..], j - k);
  }

  lemma StripEndKeeps(s: string)
    requires |s| >= 6 && s[..6] == "peers:"
    ensures |StripEnd(s)| >= 6 && StripEnd(s)[..6] == "peers:"
  {
    ColonIsNoSpace();
    hide IsSpace, AllSpace;
    assert s[5] == s[..6][5] == ':';
    var r := StripEnd(s);
    if |r| < 6 {
      SpaceSuffix(s, |r|, 5);
    }
    assert r[..6] == s[..6];
  }

  lemma FirstColon(content: string)
    requires |content| >= 6 && content[..6] == "peers:"
    ensures FirstIndex(content, ':') == 5 && content[..5] == "peers" && content[0] == 'p'
  {
    hide FirstIndex;
    var start := content[..6];
    assert start[0] == 'p' && start[1] == 'e' && start[2] == 'e' && start[3] == 'r' && start[4] == 's';
    assert start[5] == ':';
    assert content[..5] == start[..5];
  }

  lemma PlainWord(word: string)
    requires word != "" && 'a' <= word[0] <= 'z' && ('a' <= word[|word| - 1] <= 'z' || word[|word| - 1] == ':')
    ensures Strip(word) == word
  {
    hide Strip;
    StripPlain(word);
  }

  lemma SaysPeersFirst(line: string)
    requires SaysPeers(line)
    ensures |StripStart(line)| >= 6 && StripStart(line)[..6] == "peers:"
  {
    hide IsSpace, AllSpace, StripStart, StripEnd;
    var start, stripped := StripStart(line), Strip(line);
    assert stripped == start[..|stripped|] && stripped[..6] == start[..6];
  }

  lemma ParsesAs(line: string, key: string)
    requires Strip(line) != "" && !IsComment(line) && FirstIndex(Strip(line), ':') < |Strip(line)|
    requires Strip(Strip(line)[..FirstIndex(Strip(line), ':')]) == key
    ensures ParseLine(line).Some? && ParseLine(line).value.key == key && ParseLine(line).value.indent == Indent(line)
  {
    hide Strip, IsComment, Indent, FirstIndex;
  }

  lemma ParsesAsPeers(line: string)
    requires |Strip(line)| >= 6 && Strip(line)[..6] == "peers:" && |StripStart(line)| > 0 && StripStart(line)[0] == 'p'
    ensures ParseLine(line).Some? && ParseLine(line).value.key == "peers" &&
        ParseLine(line).value.indent == Indent(line)
  {
    hide Strip, StripStart, Indent, FirstIndex, ParseLine;
    FirstColon(Strip(line));
    PlainWord(Strip(line)[..5]);
    ParsesAs(line, "peers");
  }

  lemma MarginKept(line: string, more: string)
    requires Indent(line) == 0 && line != ""
    ensures Indent(line + more) == 0
  {
    assert (line + more)[0] == line[0];
  }

  /** Whatever is appended to it, a line that says `peers:` at the margin is that top-level key. */
  lemma PeersIsTop(line: string, more: string)
    requires SaysPeers(line) && Indent(line) == 0
    ensures IsTop(line + more, "peers")
  {
    SaysPeersFirst(line);
    hide StripStart, StripEnd, FirstIndex, IsSpace, AllSpace, Indent, ParseLine, SaysPeers;
    var start := StripStart(line);
    StripStartAppend(line, more);
    assert (start + more)[..6] == start[..6];
    assert start[0] == start[..6][0] == 'p';
    StripEndKeeps(start + more);
    ParsesAsPeers(line + more);
    MarginKept(line, more);
  }

  lemma ColonIsNoSpace()
    ensures !IsSpace(':')
  {
  }

  lemma EditedSaysPeers(line: string)
    requires IsPeers(line) || IsEmptyPeers(line)
    ensures SaysPeers(line)
  {
    hide Strip;
  }

  lemma EditedJoins(edited: string, npub: string, line: string, rest: string)
    requires line == if IsEmptyPeers(edited) then "peers:" + NewlineOf(edited) else edited
    ensures Join(Edited(edited, npub)) + rest == line + (Block(npub, NewlineOf(edited)) + rest)
  {
    hide Block, Strip, NewlineOf;
    var block := Block(npub, NewlineOf(edited));
    if IsEmptyPeers(edited) {
      JoinOne("peers:" + NewlineOf(edited) + block);
      assert "peers:" + NewlineOf(edited) + block + rest == line + (block + rest);
    } else {
      JoinPair(edited, block);
      assert edited + block + rest == edited + (block + rest);
    }
  }

  lemma BlockStarts(npub: string, newline: string)
    ensures Block(npub, newline) != "" && Block(npub, newline)[0] == ' '
  {
    hide Ended, Details;
  }

  lemma FirstLineOfResult(edited: string, line: string, newline: string)
    requires OneLine(edited) && (IsEmptyPeers(edited) || Closed(edited)) && IsNewline(newline)
    requires line == if IsEmptyPeers(edited) then "peers:" + newline else edited
    ensures OneLine(line) && Closed(line)
  {
    hide Strip;
    if IsEmptyPeers(edited) {
      BrokenLine("peers:", newline);
    }
  }

  /** No carriage return before the edited line meets a newline in it. */
  lemma PreviousLine(text: string, i: nat, line: string, rest: string)
    requires i < |SplitLines(text)| && line != "" && SplitLines(text)[i] != ""
    requires line[0] == 'p' || line[0] == SplitLines(text)[i][0]
    ensures i > 0 ==> StaysApart(SplitLines(text)[i - 1], line + rest)
  {
    hide OneLine, Closed, SplitLines;
    if i > 0 {
      SplitLine(text, i - 1);
    }
  }

  /** The result: its lines are those of the text, with `line` for the edited one and `added` below it. */
  ghost predicate IsResult(text: string, r: string, line: string, added: seq<string>) {
    var lines, i := SplitLines(text), FirstPeers(SplitLines(text));
    i < |lines| && SplitLines(r) == lines[..i] + ([line] + (added + lines[i + 1..]))
  }

  lemma FreshResult(text: string, npub: string) returns (line: string, newline: string)
    requires IsNpub(npub) && Insert(text, npub).Some?
    requires IsEmptyPeers(EditedLine(text)) || Closed(EditedLine(text))
    ensures IsResult(text, Insert(text, npub).value, line, BlockLines(npub, newline))
    ensures line == if IsEmptyPeers(EditedLine(text)) then "peers:" + newline else EditedLine(text)
    ensures NoneAtMargin(BlockLines(npub, newline))
  {
    hide Block, Strip, FirstPeers, Header, Details, BlockLines, OneLine, LineEnd, NoneAtMargin;
    var lines, i := SplitLines(text), FirstPeers(SplitLines(text));
    var edited, rest := lines[i], Join(lines[i + 1..]);
    newline := NewlineOf(edited);
    line := if IsEmptyPeers(edited) then "peers:" + newline else edited;
    var block := Block(npub, newline);
    InsertJoins(text, npub);
    SplitLine(text, i);
    EditedJoins(edited, npub, line, rest);
    SplitTail(text, i + 1);
    BlockSplitsIntoLines(npub, newline, rest);
    BlockStarts(npub, newline);
    FirstLineOfResult(edited, line, newline);
    SplitFirst(line, block + rest);
    PreviousLine(text, i, line, block + rest);
    SplitAfter(text, i, line + (block + rest));
  }

  lemma UnbrokenJoin(a: string, b: string)
    requires Unbroken(a) && Unbroken(b)
    ensures Unbroken(a + b)
  {
    hide IsBreak;
  }

  lemma UnclosedIsUnbroken(line: string)
    requires OneLine(line) && !Closed(line)
    ensures Unbroken(line) && line != ""
  {
  }

  lemma GluedText(edited: string, npub: string, newline: string)
    ensures edited + Block(npub, newline) == edited + (Header(npub) + newline) + Ended(Details(), newline)
    ensures edited + (Header(npub) + newline) == edited + Header(npub) + newline
  {
    hide Header, Ended, Details;
  }

  /** The merged first line when the block is glued to an unterminated last line. */
  lemma GluedLine(edited: string, npub: string, newline: string)
    requires OneLine(edited) && !Closed(edited) && IsNpub(npub) && IsNewline(newline)
    ensures var line := edited + (Header(npub) + newline);
            OneLine(line) && Closed(line) && line[|line| - 1] == '\n' && line[0] == edited[0]
    ensures edited + Block(npub, newline) == edited + (Header(npub) + newline) + Ended(Details(), newline)
  {
    HeaderHasNoNewline(npub);
    UnclosedIsUnbroken(edited);
    hide Header, Ended, Details, Unbroken, OneLine, Closed, Block;
    GluedText(edited, npub, newline);
    UnbrokenJoin(edited, Header(npub));
    BrokenLine(edited + Header(npub), newline);
  }

  lemma DetailsSplit(newline: string)
    requires IsNewline(newline)
    ensures SplitLines(Ended(Details(), newline)) == WithBreaks(Details(), newline)
    ensures NoneAtMargin(WithBreaks(Details(), newline))
  {
    DetailsAreDetails();
    hide Details, Ended, WithBreaks, IsDetail, IsBlockLine, NoneAtMargin, SplitLines, Unbroken, IsNewline;
    forall line <- Details() ensures IsBlockLine(line) {
      DetailIsBlockLine(line);
    }
    LinesUnbroken(Details());
    SplitEnded(Details(), newline, "");
    WithBreaksIndented(Details(), newline);
    assert Ended(Details(), newline) + "" == Ended(Details(), newline);
    assert SplitLines("") == [] by { NoLines(); }
  }

  lemma NoLines()
    ensures SplitLines("") == [] && Join([]) == ""
  {
  }

  lemma GluedResult(text: string, npub: string) returns (newline: string)
    requires IsNpub(npub) && Insert(text, npub).Some?
    requires !IsEmptyPeers(EditedLine(text)) && !Closed(EditedLine(text))
    ensures IsResult(text, Insert(text, npub).value, EditedLine(text) + (Header(npub) + newline),
        WithBreaks(Details(), newline))
    ensures NoneAtMargin(WithBreaks(Details(), newline))
  {
    hide Block, Strip, FirstPeers, Header, Details, OneLine, LineEnd, NoneAtMargin, Closed, Ended, WithBreaks;
    var lines, i := SplitLines(text), FirstPeers(SplitLines(text));
    var edited := lines[i];
    newline := NewlineOf(edited);
    InsertJoins(text, npub);
    SplitLine(text, i);
    assert lines[i + 1..] == [];
    NoLines();
    EditedJoins(edited, npub, edited, "");
    GluedLine(edited, npub, newline);
    DetailsSplit(newline);
    var line, below := edited + (Header(npub) + newline), Ended(Details(), newline);
    assert Insert(text, npub).value == Join(lines[..i]) + (line + below);
    SplitFirst(line, below);
    PreviousLine(text, i, line, below);
    SplitAfter(text, i, line + below);
    assert WithBreaks(Details(), newline) + lines[i + 1..] == WithBreaks(Details(), newline);
  }

  lemma TopLines(text: string, npub: string) returns (line: string, added: seq<string>)
    requires IsNpub(npub) && Insert(text, npub).Some? && Indent(EditedLine(text)) == 0
    ensures IsResult(text, Insert(text, npub).value, line, added) && NoneAtMargin(added) && IsTop(line, "peers")
  {
    hide Strip, FirstPeers, IsResult, NoneAtMargin, BlockLines, WithBreaks, Details, Header, Indent, IsTop,
        SplitLines, Closed, SaysPeers;
    var edited := EditedLine(text);
    EditedSaysPeers(edited);
    if IsEmptyPeers(edited) || Closed(edited) {
      var newline: string;
      line, newline := FreshResult(text, npub);
      added := BlockLines(npub, newline);
      if IsEmptyPeers(edited) {
        KeySaysPeers("peers:");
        PeersIsTop("peers:", newline);
      } else {
        PeersIsTop(edited, "");
        assert edited + "" == edited;
      }
    } else {
      var newline := GluedResult(text, npub);
      line, added := edited + (Header(npub) + newline), WithBreaks(Details(), newline);
      PeersIsTop(edited, Header(npub) + newline);
    }
  }

  lemma KeySaysPeers(key: string)
    requires |key| >= 6 && key[..6] == "peers:" && key[|key| - 1] == ':'
    ensures SaysPeers(key) && Indent(key) == 0
  {
    hide Strip;
    FirstColon(key);
    PlainWord(key);
  }

  /** When the edited line starts at the margin, every scalar outside `peers` is what it was, whatever the text. */
  lemma OtherScalarsKept(text: string, npub: string, wanted: seq<string>)
    requires IsNpub(npub) && Insert(text, npub).Some? && Indent(EditedLine(text)) == 0
    requires Elsewhere(wanted, "peers")
    ensures ScalarAt(Insert(text, npub).value, wanted) == ScalarAt(text, wanted)
  {
    hide Insert, FirstPeers, SplitLines, Scan, ParseLine, Strip, Indent;
    var line, added := TopLines(text, npub);
    var lines, i := SplitLines(text), FirstPeers(SplitLines(text));
    EditedSaysPeers(lines[i]);
    PeersIsTop(lines[i], "");
    assert lines[i] + "" == lines[i];
    InsertedBelow(lines[..i], lines[i], line, added, lines[i + 1..], [], "peers", wanted);
    assert lines == lines[..i] + ([lines[i]] + lines[i + 1..]);
  }
}

/** Inserting the authenticated bootstrap peer into a FIPS configuration, and recognising it. */
module FipsBootstrap {
  import opened FipsText
  import opened Wrappers

  const ADDRESS := "217.77.8.91:2121"

  /** An npub has neither white space nor a colon; it stands for the pinned one. */
  ghost predicate IsNpub(npub: string) {
    npub != "" && forall c <- npub :: !IsSpace(c) && c != ':'
  }

  // ----- the regular expressions -----

  ghost predicate AtLineStart(text: string, p: nat) {
    p <= |text| && (p > 0 ==> text[p - 1] == '\n')
  }

  ghost predicate AtLineEnd(text: string, q: nat) {
    q <= |text| && (q < |text| ==> text[q] == '\n')
  }

  /** `["']?` */
  predicate OptionalQuote(s: string) {
    s == "" || s == "\"" || s == "'"
  }

  /** `name\s*["']?value["']?\s*` */
  ghost predicate IsField(s: string, name: string, value: string) {
    exists space: string, open: string, close: string, rest: string ::
      && s == name + (space + (open + (value + (close + rest))))
      && AllSpace(space) && OptionalQuote(open) && OptionalQuote(close) && AllSpace(rest)
  }

  /** `^\s*-\s+npub:\s*["']?NPUB["']?\s*$`, matched from `p` to `q` */
  ghost predicate ActiveAt(text: string, npub: string, p: nat, q: nat) {
    && p <= q && AtLineStart(text, p) && AtLineEnd(text, q)
    && exists space: string, gap: string, field: string ::
         && text[p..q] == space + ("-" + (gap + field))
         && AllSpace(space) && AllSpace(gap) && gap != "" && IsField(field, "npub:", npub)
  }

  ghost predicate HasActive(text: string, npub: string) {
    exists p: nat, q: nat :: ActiveAt(text, npub, p, q)
  }

  const PEER := "  - npub:"

  /** `^  - npub:\s*["']?NPUB["']?\s*$`, matched from `p` to `q` */
  ghost predicate HeaderAt(text: string, npub: string, p: nat, q: nat) {
    p <= q && AtLineStart(text, p) && AtLineEnd(text, q) && IsField(text[p..q], PEER, npub)
  }

  /** `(?=^  - npub:|\Z)` */
  ghost predicate PeerEnds(text: string, e: nat) {
    e == |text| || (AtLineStart(text, e) && e + |PEER| <= |text| && text[e..e + |PEER|] == PEER)
  }

  /** The leftmost header, taken as long as possible, and the shortest body after it. */
  ghost predicate PeerAt(text: string, npub: string, p: nat, q: nat, e: nat) {
    && HeaderAt(text, npub, p, q) && q <= e <= |text| && PeerEnds(text, e)
    && (forall p': nat, q': nat :: p' < p ==> !HeaderAt(text, npub, p', q'))
    && (forall q': nat :: q < q' ==> !HeaderAt(text, npub, p, q'))
    && (forall e': nat :: q <= e' < e ==> !PeerEnds(text, e'))
  }

  /** `(?m)^\s+name\s*["']?value["']?\s*$` somewhere in the body */
  ghost predicate HasLine(body: string, name: string, value: string) {
    exists p: nat, q: nat, space: string, field: string ::
      && p <= q && AtLineStart(body, p) && AtLineEnd(body, q)
      && body[p..q] == space + field && AllSpace(space) && space != "" && IsField(field, name, value)
  }

  /** `has_authenticated_bootstrap` */
  ghost predicate HasAuthenticatedBootstrap(text: string, npub: string) {
    exists p: nat, q: nat, e: nat ::
      PeerAt(text, npub, p, q, e) && HasLine(text[q..e], "addr:", ADDRESS) &&
      HasLine(text[q..e], "connect_policy:", "auto_connect")
  }

  // ----- the insertion -----

  function Header(npub: string): string { "  - npub: \"" + npub + "\"" }

  function Alias(): string { "    alias: \"wingman-bootstrap\"" }

  function Addresses(): string { "    addresses:" }

  function Transport(): string { "      - transport: udp" }

  function Addr(): string { "        addr: \"217.77.8.91:2121\"" }

  function Policy(): string { "    connect_policy: auto_connect" }

  function Details(): seq<string> { [Alias(), Addresses(), Transport(), Addr(), Policy()] }

  /** Lines written out with their breaks. */
  function Ended(lines: seq<string>, newline: string): string {
    if lines == [] then "" else lines[0] + newline + Ended(lines[1..], newline)
  }

  /** The inserted block. */
  function Block(npub: string, newline: string): string {
    Header(npub) + newline + Ended(Details(), newline)
  }

  function NewlineOf(line: string): (newline: string)
    ensures newline == "\n" || newline == "\r\n"
  {
    if |line| >= 2 && line[|line| - 2..] == "\r\n" then "\r\n" else "\n"
  }

  predicate IsEmptyPeers(line: string) { Strip(line) == "peers: []" }

  predicate IsPeers(line: string) { Strip(line) == "peers:" }

  /** What the edited line becomes, with the block. */
  function Edited(line: string, npub: string): seq<string> {
    var newline := NewlineOf(line);
    if IsEmptyPeers(line) then ["peers:" + newline + Block(npub, newline)]
    else [line, Block(npub, newline)]
  }

  function FirstWhere(lines: seq<string>, test: string -> bool): (i: nat)
    ensures i <= |lines| && (i < |lines| ==> test(lines[i]))
  {
    if lines == [] || test(lines[0]) then 0 else 1 + FirstWhere(lines[1..], test)
  }

  /** The index of the line that is edited. */
  function FirstPeers(lines: seq<string>): (i: nat)
    ensures i <= |lines| && (i < |lines| ==> IsEmptyPeers(lines[i]) || IsPeers(lines[i]))
  {
    FirstWhere(lines, line => IsEmptyPeers(line) || IsPeers(line))
  }

  /** `with_bootstrap` on a text without an active bootstrap; `None` when it raises `ValueError` */
  function Insert(text: string, npub: string): (r: Option<string>)
    ensures r.Some? <==> FirstPeers(SplitLines(text)) < |SplitLines(text)|
  {
    var lines := SplitLines(text);
    var i := FirstPeers(lines);
    if i == |lines| then None else Some(Join(lines[..i] + Edited(lines[i], npub) + lines[i + 1..]))
  }

  ghost function WithBootstrap(text: string, npub: string): Option<(string, bool)> {
    if HasActive(text, npub) then Some((text, false))
    else if Insert(text, npub).None? then None
    else Some((Insert(text, npub).value, true))
  }

  /** The scan itself: the lines with the edit in place. */
  method EditLines(lines: seq<string>, npub: string) returns (edited: Option<seq<string>>)
    ensures var i := FirstPeers(lines);
            edited == if i == |lines| then None else Some(lines[..i] + Edited(lines[i], npub) + lines[i + 1..])
  {
    hide Strip, Block, NewlineOf;
    ghost var test := line => IsEmptyPeers(line) || IsPeers(line);
    for index := 0 to |lines|
      invariant FirstPeers(lines) == index + FirstWhere(lines[index..], test)
    {
      var line := lines[index];
      var newline := NewlineOf(line);
      if IsEmptyPeers(line) {
        assert lines[index := "peers:" + newline + Block(npub, newline)] ==
               lines[..index] + ["peers:" + newline + Block(npub, newline)] + lines[index + 1..];
        return Some(lines[index := "peers:" + newline + Block(npub, newline)]);
      }
      if IsPeers(line) {
        assert lines[..index + 1] + [Block(npub, newline)] + lines[index + 1..] ==
               lines[..index] + [line, Block(npub, newline)] + lines[index + 1..];
        return Some(lines[..index + 1] + [Block(npub, newline)] + lines[index + 1..]);
      }
    }
    return None;
  }

  /** `active` is what the regular-expression search answers. */
  method EnsureBootstrap(text: string, npub: string, active: bool) returns (result: Option<(string, bool)>)
    requires active <==> HasActive(text, npub)
    ensures result == WithBootstrap(text, npub)
  {
    hide FirstPeers, Edited, HasActive;
    if active { return Some((text, false)); }
    var edited := EditLines(SplitLines(text), npub);
    if edited.Some? { return Some((Join(edited.value), true)); }
    return None;
  }

  // ----- the shape of the result -----

  function EditedLine(text: string): string
    requires FirstPeers(SplitLines(text)) < |SplitLines(text)|
  {
    SplitLines(text)[FirstPeers(SplitLines(text))]
  }

  /** The text below the edited line. */
  function Below(text: string): string
    requires FirstPeers(SplitLines(text)) < |SplitLines(text)|
  {
    Join(SplitLines(text)[FirstPeers(SplitLines(text)) + 1..])
  }

  /** The edit leaves the block on a line of its own: the edited line is `peers: []` or ends with a newline. */
  predicate StartsFreshLine(line: string) {
    IsEmptyPeers(line) || (line != "" && line[|line| - 1] == '\n')
  }

  /** The only line breaks are newlines, alone or after a carriage return. */
  ghost predicate OnlyNewlines(text: string) {
    forall i | 0 <= i < |text| && IsBreak(text[i]) ::
      text[i] == '\n' || (text[i] == '\r' && i + 1 < |text| && text[i + 1] == '\n')
  }

  /** White space that may end a line, and does nothing else. */
  ghost predicate IsEnding(space: string) {
    AllSpace(space) && forall j | 0 <= j < |space| - 1 :: space[j] != '\n'
  }

  lemma PeersLineParts(line: string) returns (before: string, space: string)
    requires IsPeers(line) && OneLine(line)
    ensures line == before + ("peers:" + space) && IsEnding(space)
  {
    hide Strip;
    before, space := StripParts(line);
    assert line == before + ("peers:" + space);
    forall j | 0 <= j < |space| - 1 ensures space[j] != '\n' {
      assert space[j] == line[|before| + 6 + j];
    }
  }

  lemma {:induction false} JoinOne(line: string)
    ensures Join([line]) == line
  {
    assert Join([line][1..]) == "";
  }

  /** The text around one of its lines. */
  lemma JoinAround(text: string, i: nat)
    requires i < |SplitLines(text)|
    ensures var lines := SplitLines(text);
            text == Join(lines[..i]) + (lines[i] + Join(lines[i + 1..])) && OneLine(lines[i])
  {
    var lines := SplitLines(text);
    JoinSplit(text);
    SplitLine(text, i);
    JoinAppend(lines[..i], lines[i..]);
    JoinAppend([lines[i]], lines[i + 1..]);
    JoinOne(lines[i]);
    assert lines == lines[..i] + lines[i..] && lines[i..] == [lines[i]] + lines[i + 1..];
  }

  lemma JoinThree(a: seq<string>, b: seq<string>, c: seq<string>)
    ensures Join(a + b + c) == Join(a) + (Join(b) + Join(c))
  {
    hide Join;
    JoinAppend(a + b, c);
    JoinAppend(a, b);
  }

  lemma InsertJoins(text: string, npub: string)
    requires Insert(text, npub).Some?
    ensures var lines, i := SplitLines(text), FirstPeers(SplitLines(text));
            i < |lines| &&
            Insert(text, npub).value == Join(lines[..i]) + (Join(Edited(lines[i], npub)) + Join(lines[i + 1..]))
  {
    hide Edited, FirstPeers, Join, SplitLines;
    var lines, i := SplitLines(text), FirstPeers(SplitLines(text));
    JoinThree(lines[..i], Edited(lines[i], npub), lines[i + 1..]);
  }

  /** What every successful insertion looks like. */
  ghost predicate IsInsertion(text: string, npub: string, r: string, kept: string, space: string, newline: string,
        rest: string) {
    && r == kept + ("peers:" + (space + (Block(npub, newline) + rest)))
    && kept <= text && IsEnding(space) && (newline == "\n" || newline == "\r\n")
  }

  lemma EmptyPeersShape(text: string, npub: string) returns (kept: string, space: string, newline: string, rest: string)
    requires Insert(text, npub).Some? && IsEmptyPeers(EditedLine(text))
    ensures IsInsertion(text, npub, Insert(text, npub).value, kept, space, newline, rest)
    ensures space != "" && space[|space| - 1] == '\n'
  {
    hide FirstPeers, Block, Strip;
    InsertJoins(text, npub);
    var lines, i := SplitLines(text), FirstPeers(SplitLines(text));
    JoinAround(text, i);
    kept, newline, rest := Join(lines[..i]), NewlineOf(lines[i]), Join(lines[i + 1..]);
    space := newline;
    JoinOne("peers:" + newline + Block(npub, newline));
    assert "peers:" + newline + Block(npub, newline) + rest == "peers:" + (space + (Block(npub, newline) + rest));
  }

  lemma Regroup(start: string, before: string, key: string, space: string, block: string, rest: string)
    ensures start + ((before + (key + space)) + rest) == (start + before) + (key + (space + rest))
    ensures start + ((before + (key + space)) + block + rest) == (start + before) + (key + (space + (block + rest)))
  {
    assert start + ((before + (key + space)) + rest) == (start + before) + (key + (space + rest));
    assert start + ((before + (key + space)) + block + rest) == (start + before) + (key + (space + (block + rest)));
  }

  lemma PeersShape(text: string, npub: string) returns (kept: string, space: string, newline: string, rest: string)
    requires Insert(text, npub).Some? && !IsEmptyPeers(EditedLine(text))
    ensures IsInsertion(text, npub, Insert(text, npub).value, kept, space, newline, rest)
    ensures (space != "" && space[|space| - 1] == '\n') <==> StartsFreshLine(EditedLine(text))
    ensures text == kept + ("peers:" + (space + rest)) && rest == Below(text)
    ensures !Closed(EditedLine(text)) ==> rest == ""
  {
    hide FirstPeers, Block, Strip;
    InsertJoins(text, npub);
    var lines, i := SplitLines(text), FirstPeers(SplitLines(text));
    JoinAround(text, i);
    SplitLine(text, i);
    var line, block := lines[i], Block(npub, NewlineOf(lines[i]));
    var before: string;
    before, space := PeersLineParts(line);
    kept, newline, rest := Join(lines[..i]) + before, NewlineOf(line), Join(lines[i + 1..]);
    JoinPair(line, block);
    assert line[|line| - 1] == if space == "" then ':' else space[|space| - 1];
    Regroup(Join(lines[..i]), before, "peers:", space, block, rest);
  }

  lemma JoinPair(a: string, b: string)
    ensures Join([a, b]) == a + b
  {
    JoinOne(b);
    assert [a, b][1..] == [b];
  }
}

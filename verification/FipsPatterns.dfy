/**
 What the two regular-expression searches of the bootstrap scripts look for, told by the pieces that a text must fall
 into.
 */
module FipsPatterns {
  import opened FipsBootstrap
  import opened FipsText

  predicate IsQuoteMark(s: string) {
    |s| == 0 || (|s| == 1 && (s[0] == '"' || s[0] == '\''))
  }

  /** Name and value with white space around the value and at most one quote mark at each end of it. */
  ghost predicate IsEntry(s: string, name: string, value: string) {
    exists gap: string, open: string, close: string, rest: string ::
      && s == name + (gap + (open + (value + (close + rest))))
      && AllSpace(gap) && IsQuoteMark(open) && IsQuoteMark(close) && AllSpace(rest)
  }

  /** The piece stands in the text from the start of a line to the end of one. */
  predicate IsPiece(text: string, before: string, piece: string, after: string) {
    && text == before + piece + after
    && (before != "" ==> before[|before| - 1] == '\n') && (after != "" ==> after[0] == '\n')
  }

  lemma QuoteReads(s: string)
    ensures OptionalQuote(s) <==> IsQuoteMark(s)
  {
    if |s| == 1 { assert s == [s[0]]; }
  }

  lemma FieldExactly(s: string, name: string, value: string)
    ensures IsField(s, name, value) <==> IsEntry(s, name, value)
  {
    forall q: string ensures OptionalQuote(q) <==> IsQuoteMark(q) { QuoteReads(q); }
    hide OptionalQuote, IsQuoteMark, AllSpace;
  }

  lemma PieceAt(text: string, p: nat, q: nat)
    requires p <= q <= |text|
    ensures AtLineStart(text, p) && AtLineEnd(text, q) <==> IsPiece(text, text[..p], text[p..q], text[q..])
  {
    assert text == text[..p] + text[p..q] + text[q..];
  }

  lemma PieceHasPlace(text: string, before: string, piece: string, after: string)
    requires IsPiece(text, before, piece, after)
    ensures var p, q := |before|, |before + piece|;
            p <= q <= |text| && text[p..q] == piece && AtLineStart(text, p) && AtLineEnd(text, q)
  {
    assert text[..|before|] == before && text[|before + piece|..] == after;
  }

  /** An active bootstrap entry: a dash, white space, and the field. */
  ghost predicate IsActivePiece(piece: string, npub: string) {
    exists space: string, gap: string, field: string ::
      && piece == space + ("-" + (gap + field)) && AllSpace(space) && AllSpace(gap) && gap != ""
      && IsEntry(field, "npub:", npub)
  }

  lemma ActiveAtPiece(text: string, npub: string, p: nat, q: nat)
    requires p <= q <= |text| && AtLineStart(text, p) && AtLineEnd(text, q)
    ensures ActiveAt(text, npub, p, q) <==> IsActivePiece(text[p..q], npub)
  {
    forall s: string ensures IsField(s, "npub:", npub) <==> IsEntry(s, "npub:", npub) {
      FieldExactly(s, "npub:", npub);
    }
    hide IsField, IsEntry, AllSpace, AtLineStart, AtLineEnd;
  }

  ghost predicate HasActivePiece(text: string, npub: string) {
    exists before, piece, after :: IsPiece(text, before, piece, after) && IsActivePiece(piece, npub)
  }

  lemma ActiveIsPiece(text: string, npub: string, p: nat, q: nat)
    requires ActiveAt(text, npub, p, q)
    ensures HasActivePiece(text, npub)
  {
    assert p <= q <= |text| && AtLineStart(text, p) && AtLineEnd(text, q);
    PieceAt(text, p, q);
    ActiveAtPiece(text, npub, p, q);
    hide ActiveAt, IsPiece, IsActivePiece;
  }

  lemma PieceIsActive(text: string, npub: string, before: string, piece: string, after: string)
    requires IsPiece(text, before, piece, after) && IsActivePiece(piece, npub)
    ensures HasActive(text, npub)
  {
    PieceHasPlace(text, before, piece, after);
    hide ActiveAt, IsPiece, IsActivePiece, AtLineStart, AtLineEnd;
    ActiveAtPiece(text, npub, |before|, |before + piece|);
  }

  /** The insertion looks for an active entry anywhere, from the start of a line to the end of one. */
  lemma ActiveExactly(text: string, npub: string)
    ensures HasActive(text, npub) <==> HasActivePiece(text, npub)
  {
    hide ActiveAt, IsPiece, IsActivePiece;
    if HasActive(text, npub) {
      var p: nat, q: nat :| ActiveAt(text, npub, p, q);
      ActiveIsPiece(text, npub, p, q);
    }
    if HasActivePiece(text, npub) {
      var before, piece, after :| IsPiece(text, before, piece, after) && IsActivePiece(piece, npub);
      PieceIsActive(text, npub, before, piece, after);
    }
  }

  // ----- the validator -----

  ghost predicate IsHeader(text: string, npub: string, p: nat, q: nat) {
    p <= q <= |text| && IsPiece(text, text[..p], text[p..q], text[q..]) && IsEntry(text[p..q], "  - npub:", npub)
  }

  /** A line that begins with the next peer, or the end of the text. */
  predicate IsStop(text: string, e: nat) {
    e == |text| || (e < |text| && (e > 0 ==> text[e - 1] == '\n') && "  - npub:" <= text[e..])
  }

  /** The first header of the peer, and the longest; its body up to the first stop after it. */
  ghost predicate IsPeer(text: string, npub: string, p: nat, q: nat, e: nat) {
    && IsHeader(text, npub, p, q) && q <= e <= |text| && IsStop(text, e)
    && (forall p': nat, q': nat :: IsHeader(text, npub, p', q') ==> p < p' || (p == p' && q' <= q))
    && (forall e': nat :: q <= e' && IsStop(text, e') ==> e <= e')
  }

  lemma HeaderExactly(text: string, npub: string, p: nat, q: nat)
    ensures HeaderAt(text, npub, p, q) <==> IsHeader(text, npub, p, q)
  {
    if p <= q <= |text| {
      PieceAt(text, p, q);
      FieldExactly(text[p..q], PEER, npub);
    }
    hide IsField, IsEntry, IsPiece;
  }

  lemma StopExactly(text: string, e: nat)
    requires e <= |text|
    ensures PeerEnds(text, e) <==> IsStop(text, e)
  {
    if |PEER| <= |text| - e { assert text[e..e + |PEER|] == text[e..][..|PEER|]; }
  }

  /** A piece of the body with this field, indented. */
  ghost predicate IsLine(piece: string, name: string, value: string) {
    exists space: string, field: string ::
      piece == space + field && AllSpace(space) && space != "" && IsEntry(field, name, value)
  }

  /** The body has such a piece, from the start of a line to the end of one. */
  ghost predicate Says(body: string, name: string, value: string) {
    exists before, piece, after :: IsPiece(body, before, piece, after) && IsLine(piece, name, value)
  }

  lemma LineIsSaid(body: string, name: string, value: string, p: nat, q: nat, space: string, field: string)
    requires p <= q <= |body| && AtLineStart(body, p) && AtLineEnd(body, q) && body[p..q] == space + field
    requires AllSpace(space) && space != "" && IsField(field, name, value)
    ensures Says(body, name, value)
  {
    FieldExactly(field, name, value);
    PieceAt(body, p, q);
    hide IsField, IsEntry, AllSpace, AtLineStart, AtLineEnd, IsPiece;
    assert IsLine(body[p..q], name, value);
  }

  lemma SaidIsLine(body: string, name: string, value: string, before: string, piece: string, after: string)
    requires IsPiece(body, before, piece, after) && IsLine(piece, name, value)
    ensures HasLine(body, name, value)
  {
    PieceHasPlace(body, before, piece, after);
    var space, field := LineParts(piece, name, value);
    hide IsPiece, IsLine, IsField, AllSpace, AtLineStart, AtLineEnd;
    LineIsThere(body, name, value, |before|, |before + piece|, space, field);
  }

  lemma LineParts(piece: string, name: string, value: string) returns (space: string, field: string)
    requires IsLine(piece, name, value)
    ensures piece == space + field && AllSpace(space) && space != "" && IsField(field, name, value)
  {
    hide IsEntry, IsField, AllSpace;
    space, field :| piece == space + field && AllSpace(space) && space != "" && IsEntry(field, name, value);
    FieldExactly(field, name, value);
  }

  lemma LineIsThere(body: string, name: string, value: string, p: nat, q: nat, space: string, field: string)
    requires p <= q && AtLineStart(body, p) && AtLineEnd(body, q) && body[p..q] == space + field && AllSpace(space)
    requires space != "" && IsField(field, name, value)
    ensures HasLine(body, name, value)
  {
    hide AtLineStart, AtLineEnd, AllSpace, IsField;
  }

  lemma SaysExactly(body: string, name: string, value: string)
    ensures HasLine(body, name, value) <==> Says(body, name, value)
  {
    hide IsField, IsEntry, AllSpace, IsPiece, IsLine;
    if HasLine(body, name, value) {
      var p: nat, q: nat, space: string, field: string :|
        p <= q && AtLineStart(body, p) && AtLineEnd(body, q) && body[p..q] == space + field && AllSpace(space) &&
        space != "" && IsField(field, name, value);
      hide AtLineStart, AtLineEnd;
      LineIsSaid(body, name, value, p, q, space, field);
    }
    if Says(body, name, value) {
      var before, piece, after :| IsPiece(body, before, piece, after) && IsLine(piece, name, value);
      hide HasLine;
      SaidIsLine(body, name, value, before, piece, after);
    }
  }

  lemma PeerExactly(text: string, npub: string, p: nat, q: nat, e: nat)
    ensures PeerAt(text, npub, p, q, e) <==> IsPeer(text, npub, p, q, e)
  {
    forall p': nat, q': nat ensures HeaderAt(text, npub, p', q') <==> IsHeader(text, npub, p', q') {
      HeaderExactly(text, npub, p', q');
    }
    forall e': nat | e' <= |text| ensures PeerEnds(text, e') <==> IsStop(text, e') { StopExactly(text, e'); }
    hide HeaderAt, IsHeader, PeerEnds, IsStop;
    StopsWithin(text);
  }

  lemma StopsWithin(text: string)
    ensures forall e: nat :: PeerEnds(text, e) || IsStop(text, e) ==> e <= |text|
  {
  }

  /** The peer from `p` on, with address and policy in its body. */
  ghost predicate IsAccepted(text: string, npub: string, p: nat, q: nat, e: nat) {
    && IsPeer(text, npub, p, q, e) && q <= e <= |text|
    && Says(text[q..e], "addr:", "217.77.8.91:2121") && Says(text[q..e], "connect_policy:", "auto_connect")
  }

  lemma AcceptedExactly(text: string, npub: string, p: nat, q: nat, e: nat)
    ensures IsAccepted(text, npub, p, q, e) <==>
            && PeerAt(text, npub, p, q, e) && HasLine(text[q..e], "addr:", ADDRESS)
            && HasLine(text[q..e], "connect_policy:", "auto_connect")
  {
    PeerExactly(text, npub, p, q, e);
    if PeerAt(text, npub, p, q, e) {
      assert q <= e <= |text|;
      hide PeerAt, IsPeer, HasLine, Says;
      SaysExactly(text[q..e], "addr:", ADDRESS);
      SaysExactly(text[q..e], "connect_policy:", "auto_connect");
    }
  }

  /** The validator accepts a text exactly if its first entry for the peer is followed by address and policy. */
  lemma AcceptsExactly(text: string, npub: string)
    ensures HasAuthenticatedBootstrap(text, npub) <==>
            exists p: nat, q: nat, e: nat :: IsAccepted(text, npub, p, q, e)
  {
    hide PeerAt, HasLine, IsAccepted;
    if p: nat, q: nat, e: nat :| IsAccepted(text, npub, p, q, e) { AcceptedExactly(text, npub, p, q, e); }
    if HasAuthenticatedBootstrap(text, npub) {
      PeersWithin(text, npub);
      var p: nat, q: nat, e: nat :|
        PeerAt(text, npub, p, q, e) && HasLine(text[q..e], "addr:", ADDRESS) &&
        HasLine(text[q..e], "connect_policy:", "auto_connect");
      AcceptedExactly(text, npub, p, q, e);
    }
  }

  lemma PeersWithin(text: string, npub: string)
    ensures forall p: nat, q: nat, e: nat :: PeerAt(text, npub, p, q, e) ==> q <= e <= |text|
  {
    hide HeaderAt;
  }
}

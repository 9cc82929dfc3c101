/**
 Fenced code blocks as the Markdown crate stores them: a text, and one record per line pointing
 both into that text and into the source. `FencedBody` over `FencedContentRange` is the
 from-scratch answer that streaming is measured against.
 */
module CodeBlocks {
  import opened Bytes
  import opened LineIndexing
  import opened FenceLines

  datatype CodeLine = CodeLine(
    index: nat,
    source: SourceRange,
    sourceLine: Option<nat>,
    text: Range,
    target: Option<nat>)

  /** The text of a code block and its lines. */
  datatype Body = Body(text: Source, lines: seq<CodeLine>)
  {
    function PushLine(line: CodeLine, piece: Source): Body {
      var joined := if lines == [] then text else text + [LF];
      Body(joined + piece, lines + [line.(text := Range(|joined|, |joined| + |piece|))])
    }

    function TruncateLines(n: nat): Body {
      var kept := if n < |lines| then lines[..n] else lines;
      var end := if kept == [] then 0 else kept[|kept| - 1].text.end;
      Body(if end < |text| then text[..end] else text, kept)
    }

    function LineText(line: CodeLine): Source {
      if line.text.start <= line.text.end <= |text| then text[line.text.start..line.text.end] else []
    }
  }

  const NOTHING: Body := Body([], [])

  datatype CodeBlock = CodeBlock(
    info: Option<Source>,
    source: SourceRange,
    content: SourceRange,
    body: Body,
    target: Option<nat>)

  // ---- splitting into lines ----------------------------------------------

  /** The pieces between line feeds, as `split('\n')` yields them. */
  function SplitLF(s: Source): (r: seq<Source>)
    ensures r != []
  {
    if s == [] then [[]]
    else
      var before := SplitLF(s[..|s| - 1]);
      if s[|s| - 1] == LF then before + [[]]
      else before[..|before| - 1] + [before[|before| - 1] + [s[|s| - 1]]]
  }

  function JoinLF(pieces: seq<Source>): Source {
    if pieces == [] then []
    else if |pieces| == 1 then pieces[0]
    else JoinLF(pieces[..|pieces| - 1]) + [LF] + pieces[|pieces| - 1]
  }

  function LastPiece(s: Source): Source {
    SplitLF(s)[|SplitLF(s)| - 1]
  }

  /** The bytes `pieces` take up in the source, each with the line feed after it. */
  function Extent(pieces: seq<Source>): nat {
    if pieces == [] then 0 else Extent(pieces[..|pieces| - 1]) + |pieces[|pieces| - 1]| + 1
  }

  lemma SplitPush(s: Source, b: byte)
    ensures SplitLF(s + [b]) == if b == LF then SplitLF(s) + [[]]
                                else SplitLF(s)[..|SplitLF(s)| - 1] + [LastPiece(s) + [b]]
  {
    assert (s + [b])[..|s|] == s;
  }

  /** The pieces hold every byte but the line feeds, in order. */
  lemma {:induction false} SplitJoins(s: Source)
    ensures JoinLF(SplitLF(s)) == s
    ensures forall p :: p in SplitLF(s) ==> LF !in p
  {
    if s != [] {
      var init := s[..|s| - 1];
      SplitJoins(init);
      var before := SplitLF(init);
      var n := |before|;
      assert s == init + [s[|s| - 1]];
      if s[|s| - 1] == LF {
        assert SplitLF(s)[..n] == before;
      } else {
        assert SplitLF(s)[..n - 1] == before[..n - 1];
        assert LF !in before[n - 1];
      }
    }
  }

  lemma {:induction false} SplitCount(s: Source)
    ensures |SplitLF(s)| == CountLF(s) + 1
  {
    if s != [] {
      SplitCount(s[..|s| - 1]);
    }
  }

  /** The last piece is what follows the last line feed. */
  lemma {:induction false} SplitLast(s: Source)
    ensures |LastPiece(s)| <= |s| && s[|s| - |LastPiece(s)|..] == LastPiece(s) && LF !in LastPiece(s)
    ensures |SplitLF(s)| > 1 <==> |LastPiece(s)| < |s|
    ensures |LastPiece(s)| < |s| ==> s[|s| - |LastPiece(s)| - 1] == LF
  {
    hide SplitLF;
    if s == [] {
      SplitNothing();
    } else {
      var init, b := s[..|s| - 1], s[|s| - 1];
      SplitLast(init);
      LastPiecePush(init, b);
      assert s == init + [b];
      LastPieceGrows(init, b, LastPiece(init), LastPiece(s));
    }
  }

  lemma LastPieceIs(s: Source, k: nat)
    requires k <= |s| && LF !in s[k..] && (k == 0 || s[k - 1] == LF)
    ensures |LastPiece(s)| == |s| - k
  {
    hide SplitLF;
    SplitLast(s);
    var j := |s| - |LastPiece(s)|;
    assert s[j..] == s[j..|s|] && s[k..] == s[k..|s|];
    SliceWithout(s, j, |s|, LF);
    SliceWithout(s, k, |s|, LF);
  }

  lemma SplitNothing()
    ensures SplitLF([]) == [[]]
  {
  }

  lemma LastPiecePush(s: Source, b: byte)
    ensures LastPiece(s + [b]) == if b == LF then [] else LastPiece(s) + [b]
    ensures |SplitLF(s + [b])| == |SplitLF(s)| + if b == LF then 1 else 0
  {
    hide SplitLF;
    SplitPush(s, b);
  }

  lemma LastPieceGrows(init: Source, b: byte, before: Source, after: Source)
    requires |before| <= |init| && init[|init| - |before|..] == before && LF !in before
    requires |before| < |init| ==> init[|init| - |before| - 1] == LF
    requires after == if b == LF then [] else before + [b]
    ensures var s := init + [b];
            && |after| <= |s| && s[|s| - |after|..] == after && LF !in after
            && (|after| < |s| ==> s[|s| - |after| - 1] == LF)
  {
  }

  lemma {:induction false} SplitExtent(s: Source)
    ensures Extent(SplitLF(s)[..|SplitLF(s)| - 1]) + |LastPiece(s)| == |s|
  {
    if s != [] {
      var init := s[..|s| - 1];
      SplitExtent(init);
      var before := SplitLF(init);
      var n := |before|;
      if s[|s| - 1] == LF {
        assert SplitLF(s)[..n] == before;
      } else {
        assert SplitLF(s)[..n - 1] == before[..n - 1];
      }
    }
  }

  /** Dropping the last piece and the line feed before it drops exactly that piece. */
  lemma {:induction false} SplitWithoutLast(s: Source)
    requires |SplitLF(s)| > 1
    ensures |LastPiece(s)| + 1 <= |s|
    ensures SplitLF(s[..|s| - |LastPiece(s)| - 1]) == SplitLF(s)[..|SplitLF(s)| - 1]
  {
    SplitLast(s);
    var init := s[..|s| - 1];
    if s[|s| - 1] == LF {
      assert SplitLF(s)[..|SplitLF(s)| - 1] == SplitLF(init);
    } else {
      SplitWithoutLast(init);
      assert init[..|init| - |LastPiece(init)| - 1] == s[..|s| - |LastPiece(s)| - 1];
    }
  }

  // ---- laying lines out --------------------------------------------------

  /** A line before its text is placed, and the bytes that text is taken from. */
  datatype Piece = Piece(line: CodeLine, kept: Source)

  function LineAt(index: nat, offset: nat, span: nat, source: Source): CodeLine {
    CodeLine(index, SourceRangeOf(Range(offset, offset + span), source),
             Some(LineOf(source, offset)), Range(0, 0), None)
  }

  function Lay(ps: seq<Piece>): Body {
    if ps == [] then NOTHING
    else Lay(ps[..|ps| - 1]).PushLine(ps[|ps| - 1].line, StripCR(ps[|ps| - 1].kept))
  }

  function PieceAt(split: seq<Source>, i: nat, start: nat, source: Source): Piece
    requires i < |split|
  {
    Piece(LineAt(i, start + Extent(split[..i]), |split[i]|, source), split[i])
  }

  /** The pieces of a from-scratch split that starts at `start`. */
  function Pieces(split: seq<Source>, start: nat, source: Source): seq<Piece> {
    seq(|split|, i requires 0 <= i < |split| => PieceAt(split, i, start, source))
  }

  function FencedBody(content: Range, source: Source): Body
    requires content.start <= content.end <= |source|
  {
    var code := source[content.start..content.end];
    if code == [] then NOTHING else Lay(Pieces(SplitLF(code), content.start, source))
  }

  lemma {:induction false} LaySize(ps: seq<Piece>)
    ensures |Lay(ps).lines| == |ps|
    ensures ps == [] ==> Lay(ps).text == []
    ensures ps != [] ==> Lay(ps).lines[|ps| - 1].text.end == |Lay(ps).text|
  {
    if ps != [] {
      LaySize(ps[..|ps| - 1]);
    }
  }

  /** The first `k` lines and their text do not depend on the later ones. */
  lemma {:induction false} LayPrefix(ps: seq<Piece>, k: nat)
    requires k <= |ps|
    ensures |Lay(ps).lines| == |ps| && |Lay(ps[..k]).lines| == k
    ensures Lay(ps).lines[..k] == Lay(ps[..k]).lines
    ensures Lay(ps[..k]).text <= Lay(ps).text
  {
    hide Lay;
    LaySize(ps);
    LaySize(ps[..k]);
    if k == |ps| {
      assert ps[..k] == ps;
    } else {
      var init := ps[..|ps| - 1];
      LayPrefix(init, k);
      assert init[..k] == ps[..k];
      LayLast(ps);
      LaySize(init);
      assert Lay(ps).lines[..k] == Lay(ps).lines[..|init|][..k];
    }
  }

  lemma LayLast(ps: seq<Piece>)
    requires ps != []
    ensures var init := ps[..|ps| - 1];
            |Lay(init).lines| <= |Lay(ps).lines| && Lay(ps).lines[..|Lay(init).lines|] == Lay(init).lines
                && Lay(init).text <= Lay(ps).text
  {
  }

  /** Line `i` is piece `i` with its text placed. */
  lemma LayAt(ps: seq<Piece>, i: nat)
    requires i < |ps|
    ensures |Lay(ps).lines| == |ps|
    ensures Lay(ps).lines[i].(text := ps[i].line.text) == ps[i].line
    ensures Lay(ps).lines[i].text.start <= Lay(ps).lines[i].text.end <= |Lay(ps).text|
    ensures Lay(ps).LineText(Lay(ps).lines[i]) == StripCR(ps[i].kept)
  {
    hide Lay, StripCR;
    LayPrefix(ps, i + 1);
    LaySize(ps[..i]);
    assert ps[..i + 1] == ps[..i] + [ps[i]];
    LaySnoc(ps[..i], ps[i]);
    PushedLast(Lay(ps[..i]), ps[i].line, StripCR(ps[i].kept));
    SameLineText(Lay(ps), Lay(ps[..i + 1]), i);
  }

  lemma PushedLast(body: Body, line: CodeLine, piece: Source)
    ensures var pushed := body.PushLine(line, piece);
            var n := |body.lines|;
            && |pushed.lines| == n + 1 && pushed.lines[n].(text := line.text) == line
            && pushed.lines[n].text.start <= pushed.lines[n].text.end <= |pushed.text|
            && pushed.LineText(pushed.lines[n]) == piece
  {
  }

  lemma SameLineText(body: Body, part: Body, i: nat)
    requires i < |part.lines| <= |body.lines| && part.lines == body.lines[..|part.lines|] && part.text <= body.text
    requires part.lines[i].text.start <= part.lines[i].text.end <= |part.text|
    ensures body.lines[i] == part.lines[i] && body.LineText(body.lines[i]) == part.LineText(part.lines[i])
  {
    var text := part.lines[i].text;
    assert part.text == body.text[..|part.text|];
    assert body.lines[i] == body.lines[..|part.lines|][i];
    assert body.text[text.start..text.end] == part.text[text.start..text.end];
  }

  lemma TruncateToPrefix(body: Body, kept: Body, k: nat)
    requires k <= |body.lines| && kept.lines == body.lines[..k] && kept.text <= body.text
    requires |kept.text| == if k == 0 then 0 else kept.lines[k - 1].text.end
    ensures body.TruncateLines(k) == kept
  {
    assert body.text[..|kept.text|] == kept.text;
    assert body.lines[..|body.lines|] == body.lines;
  }

  lemma LayTruncate(ps: seq<Piece>, k: nat)
    requires k <= |ps|
    ensures Lay(ps).TruncateLines(k) == Lay(ps[..k])
  {
    LayPrefix(ps, k);
    LaySize(ps[..k]);
    TruncateToPrefix(Lay(ps), Lay(ps[..k]), k);
  }

  /** Lines already laid out stay as they are when the source grows. */
  lemma LineAtStable(index: nat, offset: nat, span: nat, source: Source, more: Source)
    requires offset + span <= |source|
    ensures LineAt(index, offset, span, source + more) == LineAt(index, offset, span, source)
  {
    LineOfStable(source, more, offset);
    SourceRangeStable(source, more, Range(offset, offset + span));
  }

  /** Replacing the source range of the last line is the same as having laid it with that range. */
  lemma LayRespan(ps: seq<Piece>, range: SourceRange)
    requires ps != []
    ensures var n := |ps| - 1;
            var body := Lay(ps);
            && |body.lines| == n + 1
            && body.(lines := body.lines[n := body.lines[n].(source := range)])
               == Lay(ps[..n] + [ps[n].(line := ps[n].line.(source := range))])
  {
    hide Lay, StripCR;
    var n := |ps| - 1;
    var init, last := ps[..n], ps[n].(line := ps[n].line.(source := range));
    LaySize(init);
    LaySnoc(init, last);
    LaySnoc(init, ps[n]);
    assert init + [ps[n]] == ps;
    RespanPushed(Lay(init), ps[n].line, range, StripCR(ps[n].kept));
  }

  lemma LaySnoc(ps: seq<Piece>, p: Piece)
    ensures Lay(ps + [p]) == Lay(ps).PushLine(p.line, StripCR(p.kept))
  {
    assert (ps + [p])[..|ps|] == ps;
  }

  lemma RespanPushed(body: Body, line: CodeLine, range: SourceRange, text: Source)
    ensures var pushed := body.PushLine(line, text);
            var n := |body.lines|;
            pushed.(lines := pushed.lines[n := pushed.lines[n].(source := range)])
            == body.PushLine(line.(source := range), text)
  {
  }

  // ---- targets -----------------------------------------------------------

  function Aim(line: CodeLine, i: nat, base: nat, from: nat): CodeLine {
    if i < from then line else line.(target := Some(base + 1 + i))
  }

  ghost function AimPieces(ps: seq<Piece>, base: nat, from: nat): seq<Piece> {
    seq(|ps|, i requires 0 <= i < |ps| => ps[i].(line := Aim(ps[i].line, i, base, from)))
  }

  /** Line `i` of a block whose own target is `base` gets the target after those of its earlier lines. */
  function AimLines(body: Body, base: nat, from: nat): Body {
    Body(body.text, seq(|body.lines|, i requires 0 <= i < |body.lines| => Aim(body.lines[i], i, base, from)))
  }

  lemma AimedInit(ps: seq<Piece>, base: nat, from: nat)
    requires ps != []
    ensures var n, aimed := |ps| - 1, AimPieces(ps, base, from);
            && |aimed| == n + 1 && aimed[..n] == AimPieces(ps[..n], base, from)
            && aimed[n] == ps[n].(line := Aim(ps[n].line, n, base, from))
  {
    hide Aim;
  }

  lemma AimedPush(body: Body, line: CodeLine, text: Source, base: nat, from: nat)
    ensures AimLines(body.PushLine(line, text), base, from)
         == AimLines(body, base, from).PushLine(Aim(line, |body.lines|, base, from), text)
  {
    assert AimLines(body.PushLine(line, text), base, from).lines
        == AimLines(body, base, from).PushLine(Aim(line, |body.lines|, base, from), text).lines;
  }

  lemma {:induction false} LayAimed(ps: seq<Piece>, base: nat, from: nat)
    ensures Lay(AimPieces(ps, base, from)) == AimLines(Lay(ps), base, from)
  {
    hide Aim;
    if ps != [] {
      var n := |ps| - 1;
      LaySize(ps[..n]);
      LayAimed(ps[..n], base, from);
      AimedInit(ps, base, from);
      AimedPush(Lay(ps[..n]), ps[n].line, StripCR(ps[n].kept), base, from);
    }
  }

  // ---- content of a fenced block -----------------------------------------

  function FirstLF(s: Source): (r: nat)
    ensures r <= |s| && LF !in s[..r] && (r < |s| ==> s[r] == LF)
  {
    if s == [] || s[0] == LF then 0 else 1 + FirstLF(s[1..])
  }

  function LeadingBlanks(s: Source): (r: nat)
    ensures r <= |s|
  {
    if s == [] || (s[0] != SPACE && s[0] != TAB) then 0 else 1 + LeadingBlanks(s[1..])
  }

  /** The marker byte of an opening fence line and how often it repeats. */
  function FenceMarker(openingLine: Source): (byte, nat) {
    var trimmed := openingLine[LeadingBlanks(openingLine)..];
    var marker := if trimmed == [] then BACKTICK else trimmed[0];
    (marker, LeadingRun(trimmed, marker))
  }

  function FencedContentBounds(openingEnd: nat, closingStart: Option<nat>, end: nat, source: Source): (r: Range)
    requires end <= |source| && (closingStart.Some? ==> closingStart.value <= |source|)
    ensures r.start <= r.end <= |source|
  {
    var contentEnd := if closingStart.Some? then closingStart.value else end;
    var trimmed :=
      if closingStart.Some? && contentEnd > 0 && source[contentEnd - 1] == LF then
        if contentEnd - 1 > openingEnd && source[contentEnd - 2] == CR then contentEnd - 2 else contentEnd - 1
      else contentEnd;
    Range(Min(openingEnd, trimmed), trimmed)
  }

  /** The content of the fenced block at `block`, worked out from nothing but the source. */
  function ContentRange(block: Range, source: Source): (r: Range)
    requires block.start <= block.end
    ensures r.start <= r.end <= |source|
  {
    var start, end := Min(block.start, |source|), Min(block.end, |source|);
    var opening := FirstLF(source[start..end]);
    var openingEnd := if opening < end - start then start + opening + 1 else end;
    if openingEnd >= end then Range(openingEnd, openingEnd)
    else
      var (marker, count) := FenceMarker(source[start..openingEnd]);
      var lastLine := (SplitLast(source[openingEnd..end]); end - |LastPiece(source[openingEnd..end])|);
      FencedContentBounds(openingEnd,
                          if ClosesLine(source[lastLine..end], marker, count) then Some(lastLine) else None,
                          end, source)
  }

  method FencedCodeLine(index: nat, offset: nat, piece: Source, source: Source, lineIndex: LineIndex)
    returns (line: CodeLine, text: Source)
    requires lineIndex.Indexes(source)
    ensures line == LineAt(index, offset, |piece|, source)
    ensures text == StripCR(piece)
  {
    lineIndex.RangeOfIsSourceRange(source, Range(offset, offset + |piece|));
    lineIndex.LineForOffsetCounts(source, offset);
    line := CodeLine(index, lineIndex.RangeOf(Range(offset, offset + |piece|)),
                     Some(lineIndex.LineForOffset(offset)), Range(0, 0), None);
    text := StripCR(piece);
  }

  lemma LayNext(split: seq<Source>, i: nat, start: nat, source: Source)
    requires i < |split|
    ensures var ps := Pieces(split, start, source);
            Lay(ps[..i + 1]) == Lay(ps[..i]).PushLine(LineAt(i, start + Extent(split[..i]), |split[i]|, source),
                                                      StripCR(split[i]))
    ensures Extent(split[..i + 1]) == Extent(split[..i]) + |split[i]| + 1
  {
    hide LineAt, Extent;
    var ps := Pieces(split, start, source);
    LaySnoc(ps[..i], ps[i]);
    assert ps[..i + 1] == ps[..i] + [ps[i]];
    ExtentNext(split, i);
  }

  lemma ExtentNext(split: seq<Source>, i: nat)
    requires i < |split|
    ensures Extent(split[..i + 1]) == Extent(split[..i]) + |split[i]| + 1
  {
    assert split[..i + 1][..i] == split[..i];
  }

  lemma NothingLaid()
    ensures Lay([]) == NOTHING && Extent([]) == 0
  {
  }

  method SetFencedLines(content: Range, source: Source, lineIndex: LineIndex) returns (body: Body)
    requires content.start <= content.end <= |source| && lineIndex.Indexes(source)
    ensures body == FencedBody(content, source)
  {
    hide LineOf, SourceRangeOf, SplitLF, Lay, Extent, PieceAt, LineAt;
    body := NOTHING;
    NothingLaid();
    var code := source[content.start..content.end];
    if code == [] {
      return;
    }
    var split := SplitLF(code);
    var offset := content.start;
    ghost var ps := Pieces(split, content.start, source);
    for index := 0 to |split|
      invariant body == Lay(ps[..index])
      invariant offset == content.start + Extent(split[..index])
    {
      var lineOffset := offset;
      offset := offset + |split[index]| + 1;
      var line, text := FencedCodeLine(index, lineOffset, split[index], source, lineIndex);
      body := body.PushLine(line, text);
      LayNext(split, index, content.start, source);
    }
    assert ps[..|split|] == ps;
  }

  method FencedContentRange(block: Range, source: Source) returns (content: Range)
    requires block.start <= block.end
    ensures content == ContentRange(block, source)
  {
    hide SplitLF, ClosesLine, IsFence, IsCloser, FenceMarker, BeforeCR, FencedContentBounds, FirstLF;
    var start, end := Min(block.start, |source|), Min(block.end, |source|);
    var opening := FirstLF(source[start..end]);
    var openingEnd := if opening < end - start then start + opening + 1 else end;
    if openingEnd >= end {
      return Range(openingEnd, openingEnd);
    }
    var (marker, count) := FenceMarker(source[start..openingEnd]);
    var closingStart := ClosingStart(openingEnd, end, source, marker, count);
    content := FencedContentBounds(openingEnd, closingStart, end, source);
  }

  /** The last line of the block's content, if it closes the fence. */
  method ClosingStart(from: nat, end: nat, source: Source, marker: byte, count: nat) returns (r: Option<nat>)
    requires from <= end <= |source|
    ensures var lastLine := (SplitLast(source[from..end]); end - |LastPiece(source[from..end])|);
            r == if ClosesLine(source[lastLine..end], marker, count) then Some(lastLine) else None
  {
    hide SplitLF, ClosesLine, IsFence, IsCloser, BeforeCR;
    SplitLast(source[from..end]);
    var lastLine := end - |LastPiece(source[from..end])|;
    var closes := ClosingFence(source[lastLine..end], marker, count);
    r := if closes then Some(lastLine) else None;
  }

  /** What the from-scratch lines mean: they tile the content, and each line's text is its own
      source bytes without the carriage return. */
  lemma FencedLinesTileContent(content: Range, source: Source)
    requires content.start < content.end <= |source|
    ensures var body := FencedBody(content, source);
            var n := |body.lines|;
            && n == CountLF(source[content.start..content.end]) + 1
            && body.lines[0].source.bytes.start == content.start
            && body.lines[n - 1].source.bytes.end == content.end
            && (forall i :: 0 <= i < n - 1 ==>
                              body.lines[i].source.bytes.end + 1 == body.lines[i + 1].source.bytes.start)
            && forall i :: 0 <= i < n ==> LineHoldsItsSource(body, body.lines[i], content, source)
  {
    hide LineOf, SourceRangeOf, SplitLF, Lay, LineHoldsItsSource;
    var code := source[content.start..content.end];
    var split := SplitLF(code);
    var body := FencedBody(content, source);
    LaySize(Pieces(split, content.start, source));
    SplitCount(code);
    SplitExtent(code);
    FencedLineAt(content, source, 0);
    FencedLineAt(content, source, |split| - 1);
    forall i | 0 <= i < |split|
      ensures LineHoldsItsSource(body, body.lines[i], content, source)
    {
      FencedLineAt(content, source, i);
    }
    forall i | 0 <= i < |split| - 1
      ensures body.lines[i].source.bytes.end + 1 == body.lines[i + 1].source.bytes.start
    {
      FencedLineAt(content, source, i);
      FencedLineAt(content, source, i + 1);
      assert split[..i + 1][..i] == split[..i];
    }
  }

  lemma FencedLineAt(content: Range, source: Source, i: nat)
    requires content.start < content.end <= |source|
    requires i < |SplitLF(source[content.start..content.end])|
    ensures var split := SplitLF(source[content.start..content.end]);
            var body := FencedBody(content, source);
            var at := content.start + Extent(split[..i]);
            && |body.lines| == |split|
            && body.lines[i].source.bytes == Range(at, at + |split[i]|)
            && LineHoldsItsSource(body, body.lines[i], content, source)
  {
    hide LineOf, SplitLF, Lay, Extent;
    var split := SplitLF(source[content.start..content.end]);
    PieceHoldsItsSource(content, source, i);
    LayAt(Pieces(split, content.start, source), i);
  }

  lemma PieceHoldsItsSource(content: Range, source: Source, i: nat)
    requires content.start < content.end <= |source|
    requires i < |SplitLF(source[content.start..content.end])|
    ensures var split := SplitLF(source[content.start..content.end]);
            var at := content.start + Extent(split[..i]);
            && at + |split[i]| <= content.end
            && source[at..at + |split[i]|] == split[i]
            && LF !in split[i]
  {
    var code := source[content.start..content.end];
    PieceInPlace(code, i);
    SplitJoins(code);
    SubSlice(source, content.start, content.end, Extent(SplitLF(code)[..i]), |SplitLF(code)[i]|);
  }

  ghost predicate LineHoldsItsSource(body: Body, line: CodeLine, content: Range, source: Source)
    requires content.end <= |source|
  {
    var b := line.source.bytes;
    && content.start <= b.start <= b.end <= content.end
    && LF !in source[b.start..b.end]
    && body.LineText(line) == StripCR(source[b.start..b.end])
    && line.sourceLine == Some(LineOf(source, b.start))
  }

  lemma {:induction false} PieceInPlace(s: Source, i: nat)
    requires i < |SplitLF(s)|
    ensures var at := Extent(SplitLF(s)[..i]);
            at + |SplitLF(s)[i]| <= |s| && s[at..at + |SplitLF(s)[i]|] == SplitLF(s)[i]
  {
    hide SplitLF, Extent;
    SplitLast(s);
    SplitExtent(s);
    if i < |SplitLF(s)| - 1 {
      SplitWithoutLast(s);
      var cut := |s| - |LastPiece(s)| - 1;
      PieceInPlace(s[..cut], i);
      assert SplitLF(s[..cut])[..i] == SplitLF(s)[..i];
      SubSlice(s, 0, cut, Extent(SplitLF(s)[..i]), |SplitLF(s)[i]|);
      assert s[0..cut] == s[..cut];
    }
  }
}

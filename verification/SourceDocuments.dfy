/**
 A captured file version: its text, where its lines start, and its one-based lines. A patch names
 the same lines by the bytes between line feeds, so the two readings are compared here.
 */
module SourceDocuments {
  import opened Bytes
  import opened LineIndexing
  import opened CodeBlocks

  const MAX_SOURCE_FILE_BYTES: nat := 8 * 1024 * 1024
  const MAX_SOURCE_FILE_LINES: nat := 1_000_000

  datatype Unavailable = Absent | NotCaptured | Binary | TooLarge(bytes: nat) | TooManyLines(lines: nat) | Failed

  datatype SourceResult = Captured(document: SourceDocument) | Missing(reason: Unavailable)
  {
    function Document(): Option<SourceDocument> {
      if Captured? then Some(document) else None
    }

    function LineCount(): nat {
      if Captured? then document.LineCount() else 0
    }
  }

  datatype SourceDocument = SourceDocument(text: Source, lineStarts: seq<nat>)
  {
    function LineCount(): nat { |lineStarts| }

    ghost predicate Valid() {
      lineStarts == LineStarts(text)
    }

    /** The bytes of a one-based line, without its line ending. */
    function LineSpan(number: nat): (r: Option<Range>)
      requires Valid()
    {
      if number == 0 || number > |lineStarts| then None
      else
        StartsInText(text);
        var start := lineStarts[number - 1];
        var end := if number < |lineStarts| then lineStarts[number] else |text|;
        var beforeLF := if end > start && text[end - 1] == LF then end - 1 else end;
        var beforeCR := if beforeLF > start && text[beforeLF - 1] == CR then beforeLF - 1 else beforeLF;
        Some(Range(start, beforeCR))
    }

    function Line(number: nat): (r: Option<Source>)
      requires Valid()
      ensures r == if 1 <= number <= |TextLines(text)| then Some(StripCR(TextLines(text)[number - 1])) else None
    {
      LineIsPiece(text, number);
      var span := LineSpan(number);
      if span.None? then None else Some(text[span.value.start..span.value.end])
    }
  }

  predicate EndsWithLF(text: Source) {
    text != [] && text[|text| - 1] == LF
  }

  /** The lines of a text: what lies between line feeds, with nothing after a final one. */
  function TextLines(text: Source): seq<Source> {
    if text == [] then []
    else if EndsWithLF(text) then SplitLF(text)[..|SplitLF(text)| - 1]
    else SplitLF(text)
  }

  /** Where those lines start. */
  ghost function LineStarts(text: Source): seq<nat> {
    if text == [] then []
    else if EndsWithLF(text) then Starts(text)[..|Starts(text)| - 1]
    else Starts(text)
  }

  /** Where the content of line `i` ends, before its line feed. */
  ghost function PieceEnd(text: Source, i: nat): int
    requires i < |Starts(text)|
  {
    if i + 1 < |Starts(text)| then Starts(text)[i + 1] - 1 else |text|
  }

  lemma {:induction false} PieceBetweenStarts(text: Source, i: nat)
    requires i < |Starts(text)|
    ensures |SplitLF(text)| == |Starts(text)|
    ensures 0 <= Starts(text)[i] <= PieceEnd(text, i) <= |text|
    ensures SplitLF(text)[i] == text[Starts(text)[i]..PieceEnd(text, i)]
    ensures i + 1 < |Starts(text)| ==> PieceEnd(text, i) < |text| && text[PieceEnd(text, i)] == LF
  {
    if text == [] {
    } else {
      var init, b := text[..|text| - 1], text[|text| - 1];
      assert text == init + [b];
      SplitPush(init, b);
      StartsPush(init, b);
      PieceBetweenStarts(init, 0);
      hide SplitLF, Starts;
      if i < |Starts(init)| {
        PieceBetweenStarts(init, i);
        PieceGrows(init, b, Starts(init)[i], PieceEnd(init, i));
      }
    }
  }

  lemma StartsPush(text: Source, b: byte)
    ensures Starts(text + [b]) == if b == LF then Starts(text) + [|text| + 1] else Starts(text)
  {
    assert (text + [b])[..|text|] == text;
  }

  lemma PieceGrows(init: Source, b: byte, from: nat, to: nat)
    requires from <= to <= |init|
    ensures (init + [b])[from..to] == init[from..to]
    ensures to == |init| ==> (init + [b])[from..to + 1] == init[from..to] + [b]
  {
  }

  lemma StartsInText(text: Source)
    ensures forall i :: 0 <= i < |LineStarts(text)| ==> LineStarts(text)[i] <= |text|
    ensures Increasing(LineStarts(text))
  {
    StartsCharacterized(text);
    assert forall i :: 0 <= i < |Starts(text)| ==> Starts(text)[i] in Starts(text);
  }

  /** A line's span is its piece of the text without one carriage return at its end. */
  lemma LineIsPiece(text: Source, number: nat)
    ensures |LineStarts(text)| == |TextLines(text)|
    ensures 1 <= number <= |TextLines(text)| ==>
              var span := SourceDocument(text, LineStarts(text)).LineSpan(number);
              span.Some? && span.value.start <= span.value.end <= |text|
              && text[span.value.start..span.value.end] == StripCR(TextLines(text)[number - 1])
  {
    hide StripCR, SplitLF, Starts, SourceDocument.LineSpan;
    PieceBetweenStarts(text, 0);
    if 1 <= number <= |TextLines(text)| {
      PieceBetweenStarts(text, number - 1);
      LineSpanIs(text, number);
      StripCRSlice(text, Starts(text)[number - 1], PieceEnd(text, number - 1));
    }
  }

  lemma LineSpanIs(text: Source, number: nat)
    requires 1 <= number <= |TextLines(text)| == |LineStarts(text)|
    ensures number <= |Starts(text)|
    ensures var start, stop := Starts(text)[number - 1], PieceEnd(text, number - 1);
            && start <= stop <= |text|
            && SourceDocument(text, LineStarts(text)).LineSpan(number)
            == Some(Range(start, if stop > start && text[stop - 1] == CR then stop - 1 else stop))
  {
    hide SplitLF, Starts, LineStarts, TextLines, PieceEnd;
    SpanEnds(text, number);
  }

  /** Where a line's content ends: before its line feed, if it has one. */
  lemma SpanEnds(text: Source, number: nat)
    requires 1 <= number <= |TextLines(text)| == |LineStarts(text)|
    ensures number <= |Starts(text)| && LineStarts(text)[number - 1] == Starts(text)[number - 1]
    ensures var start, stop := Starts(text)[number - 1], if number < |LineStarts(text)| then LineStarts(text)[number]
            else |text|;
            && start <= stop <= |text|
            && PieceEnd(text, number - 1) == if stop > start && text[stop - 1] == LF then stop - 1 else stop
  {
    hide SplitLF, Starts;
    PieceBetweenStarts(text, number - 1);
    if number == |Starts(text)| {
      NoTrailingLF(text, Starts(text)[number - 1]);
    } else if number == |LineStarts(text)| {
      LastStart(text);
    }
  }

  lemma NoTrailingLF(text: Source, start: nat)
    requires start <= |text| && LastPiece(text) == text[start..]
    ensures start < |text| ==> text[|text| - 1] != LF
  {
    SplitLast(text);
    if start < |text| {
      assert text[|text| - 1] == text[start..][|text| - 1 - start];
    }
  }

  lemma LastStart(text: Source)
    requires EndsWithLF(text)
    ensures Starts(text)[|Starts(text)| - 1] == |text|
  {
  }

  lemma StripCRSlice(text: Source, start: nat, stop: nat)
    requires start <= stop <= |text|
    ensures StripCR(text[start..stop])
         == text[start..if stop > start && text[stop - 1] == CR then stop - 1 else stop]
  {
  }

  method TryFromText(text: Source) returns (r: SourceResult)
    ensures r.Captured? <==> |text| <= MAX_SOURCE_FILE_BYTES && |TextLines(text)| <= MAX_SOURCE_FILE_LINES
    ensures r.Captured? ==> r.document.Valid() && r.document.text == text
    ensures |text| > MAX_SOURCE_FILE_BYTES ==> r == Missing(TooLarge(|text|))
    ensures |text| <= MAX_SOURCE_FILE_BYTES && r.Missing? ==> r == Missing(TooManyLines(|TextLines(text)|))
  {
    if |text| > MAX_SOURCE_FILE_BYTES {
      return Missing(TooLarge(|text|));
    }
    var lineStarts := [0];
    for index := 0 to |text|
      invariant lineStarts == Starts(text[..index])
    {
      assert text[..index + 1][..index] == text[..index];
      if text[index] == LF {
        lineStarts := lineStarts + [index + 1];
      }
    }
    assert text[..|text|] == text;
    if EndsWithLF(text) {
      lineStarts := lineStarts[..|lineStarts| - 1];
    }
    if text == [] {
      lineStarts := [];
    }
    LineIsPiece(text, 0);
    if |lineStarts| > MAX_SOURCE_FILE_LINES {
      return Missing(TooManyLines(|lineStarts|));
    }
    return Captured(SourceDocument(text, lineStarts));
  }

  // ---- lines as a patch names them --------------------------------------

  /** Line `i` of a text with its line feed, if it has one. */
  function LineToken(text: Source, i: nat): Source
    requires i < |TextLines(text)|
  {
    if i + 1 < |TextLines(text)| || EndsWithLF(text) then TextLines(text)[i] + [LF] else TextLines(text)[i]
  }

  /** How the patch parser reads one line. */
  function PatchText(token: Source): Source {
    StripCR(if EndsWithLF(token) then token[..|token| - 1] else token)
  }

  /** How the patch derivation reads one line: a carriage return goes only with a line feed. */
  function StripLineEnding(token: Source): Source {
    if EndsWithLF(token) then StripCR(token[..|token| - 1]) else token
  }

  lemma TokenShape(text: Source, i: nat)
    requires i < |TextLines(text)|
    ensures var line, token := TextLines(text)[i], LineToken(text, i);
            LF !in line && (token == line + [LF] || token == line) && (EndsWithLF(token) <==> token == line + [LF])
  {
    SplitJoins(text);
    var line := TextLines(text)[i];
    assert line in SplitLF(text);
  }

  /** The patch parser and the source document read a line the same way. */
  lemma PatchTextIsLine(document: SourceDocument, i: nat)
    requires document.Valid() && i < |TextLines(document.text)|
    ensures document.Line(i + 1) == Some(PatchText(LineToken(document.text, i)))
  {
    TokenShape(document.text, i);
    var line := TextLines(document.text)[i];
    assert (line + [LF])[..|line + [LF]| - 1] == line;
  }

  /** The patch derivation agrees with it on every line but a last one that ends in a bare carriage
      return. */
  lemma DerivedTextIsLineIff(document: SourceDocument, i: nat)
    requires document.Valid() && i < |TextLines(document.text)|
    ensures var token := LineToken(document.text, i);
            document.Line(i + 1) == Some(StripLineEnding(token)) <==> EndsWithLF(token) || StripCR(token) == token
  {
    TokenShape(document.text, i);
    PatchTextIsLine(document, i);
  }

  lemma {:induction false} OnePiece(text: Source)
    requires LF !in text
    ensures SplitLF(text) == [text]
  {
    if text != [] {
      OnePiece(text[..|text| - 1]);
      assert text[..|text| - 1] + [text[|text| - 1]] == text;
    }
  }

  /** The one-line file `x` followed by a carriage return shows as `x`, its derived patch as `x` and
      the carriage return. */
  lemma BareCRDiffers()
    ensures var text: Source := [120, CR];
            TextLines(text) == [text] && StripLineEnding(LineToken(text, 0)) == text
            && SourceDocument(text, LineStarts(text)).Line(1) == Some(text[..1])
  {
    var text: Source := [120, CR];
    OnePiece(text);
    assert StripCR(TextLines(text)[0]) == text[..1];
  }
}

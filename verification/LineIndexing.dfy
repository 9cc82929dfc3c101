/**
 The line index of the Markdown crate: where each line starts and where its content ends.
 The functions here say what the index of a whole source is; the class below builds it one
 appended chunk at a time.
 */
module LineIndexing {
  import opened Bytes

  datatype LineRange = LineRange(start: nat, end: nat)
  datatype SourceRange = SourceRange(bytes: Range, lines: LineRange)

  /** The one-based line holding `offset`: one more than the line feeds before it. */
  function LineOf(source: Source, offset: nat): nat {
    1 + CountLF(source[..Min(offset, |source|)])
  }

  function SourceRangeOf(bytes: Range, source: Source): SourceRange {
    var first := LineOf(source, bytes.start);
    var last := LineOf(source, Max(Monus(bytes.end, 1), bytes.start));
    SourceRange(bytes, LineRange(first, Max(last, first)))
  }

  ghost function Starts(source: Source): (r: seq<nat>)
    ensures r != [] && r[0] == 0
  {
    if source == [] then [0]
    else Starts(source[..|source| - 1]) + if source[|source| - 1] == LF then [|source|] else []
  }

  /** Where the content of every line that has a terminator ends. */
  ghost function TerminatedEnds(source: Source): seq<nat> {
    if source == [] then []
    else
      var n := |source|;
      TerminatedEnds(source[..n - 1]) + if source[n - 1] == LF then [TerminatorStart(source, n - 1)] else []
  }

  /** Where the terminator whose line feed is at `lf` begins: one byte earlier for CRLF. */
  function TerminatorStart(source: Source, lf: nat): nat
    requires lf < |source|
  {
    if lf > 0 && source[lf - 1] == CR then lf - 1 else lf
  }

  ghost predicate Increasing(s: seq<nat>) {
    forall i, j :: 0 <= i < j < |s| ==> s[i] < s[j]
  }

  lemma {:induction false} StartsCharacterized(source: Source)
    ensures Increasing(Starts(source))
    ensures forall o: nat :: o in Starts(source) <==> o == 0 || (o <= |source| && source[o - 1] == LF)
    ensures |Starts(source)| == 1 + CountLF(source)
  {
    if source != [] {
      var init := source[..|source| - 1];
      StartsCharacterized(init);
      assert forall i :: 0 <= i < |Starts(init)| ==> Starts(init)[i] in Starts(init);
      assert forall o: nat :: o in Starts(init) ==> o <= |init|;
      forall o: nat
        ensures o in Starts(source) <==> o == 0 || (o <= |source| && source[o - 1] == LF)
      {
        assert 0 < o <= |init| ==> init[o - 1] == source[o - 1];
        if source[|source| - 1] == LF {
          assert o in Starts(source) <==> o in Starts(init) || o == |source|;
        }
      }
    }
  }

  lemma {:induction false} ContentEndsFollowStarts(source: Source)
    ensures |TerminatedEnds(source)| + 1 == |Starts(source)|
    ensures forall i :: 0 <= i < |TerminatedEnds(source)| ==>
                          Starts(source)[i] <= TerminatedEnds(source)[i] < Starts(source)[i + 1]
    ensures Starts(source)[|Starts(source)| - 1] <= |source|
  {
    if source != [] {
      var n := |source|;
      var init := source[..n - 1];
      ContentEndsFollowStarts(init);
      if source[n - 1] == LF {
        var before := Starts(init);
        var last := before[|before| - 1];
        StartsCharacterized(init);
        assert last in before;
        assert last > 0 ==> source[last - 1] == LF;
      }
    }
  }

  /** Index of the first element above `bound`: what `partition_point` returns on sorted input. */
  function PartitionPoint(s: seq<nat>, bound: nat): (r: nat)
    ensures r <= |s|
  {
    if s == [] then 0
    else if s[|s| - 1] <= bound then |s|
    else PartitionPoint(s[..|s| - 1], bound)
  }

  lemma {:induction false} PartitionPointSplits(s: seq<nat>, bound: nat)
    requires Increasing(s)
    ensures forall i :: 0 <= i < |s| ==> (s[i] <= bound <==> i < PartitionPoint(s, bound))
  {
    if s != [] && s[|s| - 1] > bound {
      PartitionPointSplits(s[..|s| - 1], bound);
    }
  }

  lemma {:induction false} PartitionPointCounts(source: Source, offset: nat)
    ensures PartitionPoint(Starts(source), offset) == LineOf(source, offset)
  {
    if source != [] {
      var n := |source|;
      var init := source[..n - 1];
      PartitionPointCounts(init, offset);
      StartsCharacterized(source);
      StartsCharacterized(init);
      if offset < n {
        assert init[..Min(offset, n - 1)] == source[..Min(offset, n)];
      } else {
        assert init[..Min(offset, n - 1)] == init && source[..Min(offset, n)] == source;
      }
      if source[n - 1] == LF {
        assert Starts(source)[..|Starts(init)|] == Starts(init);
      } else {
        assert Starts(source) == Starts(init);
      }
    }
  }

  /** Appending never moves the line of an offset already covered. */
  lemma LineOfStable(source: Source, more: Source, offset: nat)
    requires offset <= |source|
    ensures LineOf(source + more, offset) == LineOf(source, offset)
  {
    assert (source + more)[..Min(offset, |source + more|)] == source[..Min(offset, |source|)];
  }

  lemma SourceRangeStable(source: Source, more: Source, bytes: Range)
    requires bytes.start <= |source| && bytes.end <= |source|
    ensures SourceRangeOf(bytes, source + more) == SourceRangeOf(bytes, source)
  {
    LineOfStable(source, more, bytes.start);
    LineOfStable(source, more, Max(Monus(bytes.end, 1), bytes.start));
  }

  /** A line feed comes at or after `from`. */
  ghost predicate Terminated(source: Source, from: nat) {
    exists i :: from <= i < |source| && source[i] == LF
  }

  class LineIndex {
    var starts: seq<nat>
    var contentEnds: seq<nat>
    var sourceLen: nat

    /** The index is the one a fresh pass over the whole of `source` would give. */
    ghost predicate Indexes(source: Source)
      reads this
    {
      && starts == Starts(source)
      && contentEnds == TerminatedEnds(source) + [|source|]
      && sourceLen == |source|
    }

    constructor (source: Source)
      ensures Indexes(source)
    {
      starts := [0];
      contentEnds := [0];
      sourceLen := 0;
      new;
      Extend(source, 0);
    }

    /** Only the bytes from `from` on are looked at, and the byte before a line feed even when it
        came in an earlier chunk. */
    method Extend(source: Source, from: nat)
      requires from <= |source|
      requires Indexes(source[..from])
      modifies this
      ensures Indexes(source)
    {
      contentEnds := contentEnds[..|contentEnds| - 1];
      for index := from to |source|
        invariant starts == Starts(source[..index])
        invariant contentEnds == TerminatedEnds(source[..index])
      {
        assert source[..index + 1][..index] == source[..index];
        if source[index] == LF {
          contentEnds := contentEnds + [Monus(index, if index > 0 && source[index - 1] == CR then 1 else 0)];
          starts := starts + [index + 1];
        }
      }
      assert source[..|source|] == source;
      contentEnds := contentEnds + [|source|];
      sourceLen := |source|;
    }

    function LineForOffset(offset: nat): nat
      requires starts != []
      reads this
    {
      PartitionPoint(starts, Min(offset, starts[|starts| - 1]))
    }

    function LineStartOf(offset: nat): nat
      requires starts != []
      reads this
    {
      starts[Monus(PartitionPoint(starts, offset), 1)]
    }

    predicate LineComplete(offset: nat)
      reads this
    {
      starts != [] && starts[|starts| - 1] > offset
    }

    function LineBreaksAfter(offset: nat): nat
      reads this
    {
      |starts| - PartitionPoint(starts, offset)
    }

    function RangeOf(bytes: Range): SourceRange
      requires starts != []
      reads this
    {
      var first := LineForOffset(bytes.start);
      var last := LineForOffset(Max(Monus(bytes.end, 1), bytes.start));
      SourceRange(bytes, LineRange(first, Max(last, first)))
    }

    lemma LineForOffsetCounts(source: Source, offset: nat)
      requires Indexes(source)
      ensures LineForOffset(offset) == LineOf(source, offset)
    {
      var last := starts[|starts| - 1];
      PartitionPointCounts(source, offset);
      assert offset >= last ==> PartitionPoint(starts, last) == |starts| == PartitionPoint(starts, offset);
    }

    lemma RangeOfIsSourceRange(source: Source, bytes: Range)
      requires Indexes(source)
      ensures RangeOf(bytes) == SourceRangeOf(bytes, source)
    {
      LineForOffsetCounts(source, bytes.start);
      LineForOffsetCounts(source, Max(Monus(bytes.end, 1), bytes.start));
    }

    /** The start of the line holding `offset`: nothing but line content lies between them. */
    lemma LineStartOfIsLineStart(source: Source, offset: nat)
      requires Indexes(source) && offset <= |source|
      ensures LineStartOf(offset) <= offset
      ensures LineStartOf(offset) == 0 || source[LineStartOf(offset) - 1] == LF
      ensures LF !in source[LineStartOf(offset)..offset]
    {
      StartsCharacterized(source);
      PartitionPointSplits(starts, offset);
      assert 0 < PartitionPoint(starts, offset);
      var start := LineStartOf(offset);
      assert start in starts;
      forall i | start <= i < offset
        ensures source[i] != LF
      {
        assert source[i] == LF ==> i + 1 in starts;
      }
    }

    lemma LineCompleteIffTerminated(source: Source, offset: nat)
      requires Indexes(source)
      ensures LineComplete(offset) <==> Terminated(source, offset)
    {
      StartsCharacterized(source);
      var last := starts[|starts| - 1];
      assert last in starts;
      if last > offset {
        assert source[last - 1] == LF;
      }
      forall i | offset <= i < |source| && source[i] == LF
        ensures last > offset
      {
        assert i + 1 in starts;
      }
    }

    lemma LineBreaksAfterCounts(source: Source, offset: nat)
      requires Indexes(source) && offset <= |source|
      ensures LineBreaksAfter(offset) == CountLF(source[offset..])
    {
      PartitionPointCounts(source, offset);
      StartsCharacterized(source);
      assert source == source[..offset] + source[offset..];
      CountLFConcat(source[..offset], source[offset..]);
    }
  }
}

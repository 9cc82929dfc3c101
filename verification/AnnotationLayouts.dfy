/**
 Source rows with annotation boxes between them. The layout stores only where each box starts; the flat
 list of everything it stands for is defined here and its lookups are compared with that list.
 */
module AnnotationLayouts {
  import opened Bytes

  datatype AnnotationBox = AnnotationBox(lines: seq<string>)

  datatype AnnotationRow = SourceRow(source: nat) | BoxRow(source: nat, box: AnnotationBox, line: nat)

  /** A box and the source row it hangs under. */
  datatype Pair = Pair(source: nat, box: AnnotationBox)

  datatype Placed = Placed(source: nat, visual: nat, box: AnnotationBox)

  datatype Anchored = Anchored(source: nat, boxes: seq<AnnotationBox>)

  ghost predicate KeysAscend(anchored: seq<Anchored>) {
    forall i, j :: 0 <= i < j < |anchored| ==> anchored[i].source < anchored[j].source
  }

  predicate Contains(range: Range, source: nat) {
    range.start <= source < range.end
  }

  // ---- the flat list -----------------------------------------------------

  ghost function PairsOf(source: nat, boxes: seq<AnnotationBox>): seq<Pair> {
    seq(|boxes|, i requires 0 <= i < |boxes| => Pair(source, boxes[i]))
  }

  /** The boxes whose source row is in the range, in order. */
  ghost function Kept(range: Range, anchored: seq<Anchored>): seq<Pair> {
    if anchored == [] then []
    else
      var last := anchored[|anchored| - 1];
      Kept(range, anchored[..|anchored| - 1]) + if Contains(range, last.source) then PairsOf(last.source, last.boxes)
          else []
  }

  ghost function BoxRows(pair: Placed): seq<AnnotationRow> {
    seq(|pair.box.lines|, i requires 0 <= i < |pair.box.lines| => BoxRow(pair.source, pair.box, i))
  }

  /** The rows of the boxes under one source row. */
  ghost function RowsUnder(pairs: seq<Placed>, source: nat): seq<AnnotationRow> {
    if pairs == [] then []
    else
      var last := pairs[|pairs| - 1];
      RowsUnder(pairs[..|pairs| - 1], source) + if last.source == source then BoxRows(last) else []
  }

  /** Each of the first `n` source rows of the range followed by all its boxes' lines. */
  ghost function Flat(pairs: seq<Placed>, start: nat, n: nat): seq<AnnotationRow> {
    if n == 0 then []
    else Flat(pairs, start, n - 1) + [SourceRow(start + n - 1)] + RowsUnder(pairs, start + n - 1)
  }

  // ---- where things are in it --------------------------------------------

  /** The lines of the first `k` boxes. */
  function LinesOf(pairs: seq<Placed>, k: nat): nat
    requires k <= |pairs|
  {
    if k == 0 then 0 else LinesOf(pairs, k - 1) + |pairs[k - 1].box.lines|
  }

  ghost predicate SourcesAscend(pairs: seq<Placed>) {
    forall i, j :: 0 <= i < j < |pairs| ==> pairs[i].source <= pairs[j].source
  }

  /** The first `k` boxes are those above a source row. */
  ghost predicate Above(pairs: seq<Placed>, k: nat, source: nat) {
    && k <= |pairs| && (k > 0 ==> pairs[k - 1].source < source) && (k < |pairs| ==> pairs[k].source >= source)
  }

  lemma AllAbove(pairs: seq<Placed>, k: nat, source: nat)
    requires SourcesAscend(pairs) && Above(pairs, k, source)
    ensures forall i :: 0 <= i < |pairs| ==> (pairs[i].source < source <==> i < k)
  {
  }

  /** The rows of some boxes, one after another. */
  ghost function AllRows(pairs: seq<Placed>): seq<AnnotationRow> {
    if pairs == [] then [] else AllRows(pairs[..|pairs| - 1]) + BoxRows(pairs[|pairs| - 1])
  }

  lemma {:induction false} LinesOfPrefix(pairs: seq<Placed>, n: nat, k: nat)
    requires k <= n <= |pairs|
    ensures LinesOf(pairs[..n], k) == LinesOf(pairs, k)
  {
    if k > 0 {
      LinesOfPrefix(pairs, n, k - 1);
    }
  }

  lemma {:induction false} LinesOfSlice(pairs: seq<Placed>, k: nat, m: nat, i: nat)
    requires k + i <= m <= |pairs|
    ensures LinesOf(pairs[k..m], i) == LinesOf(pairs, k + i) - LinesOf(pairs, k)
  {
    if i > 0 {
      LinesOfSlice(pairs, k, m, i - 1);
    }
  }

  lemma {:induction false} LinesOfGrows(pairs: seq<Placed>, i: nat, k: nat)
    requires i <= k <= |pairs|
    ensures LinesOf(pairs, i) <= LinesOf(pairs, k)
  {
    if i < k {
      LinesOfGrows(pairs, i, k - 1);
    }
  }

  /** Line `line` of box `i` among the rows of some boxes. */
  lemma {:induction false} AllRowsAt(pairs: seq<Placed>, i: nat, line: nat)
    requires i < |pairs| && line < |pairs[i].box.lines|
    ensures |AllRows(pairs)| == LinesOf(pairs, |pairs|) && LinesOf(pairs, i) + line < |AllRows(pairs)|
    ensures AllRows(pairs)[LinesOf(pairs, i) + line] == BoxRow(pairs[i].source, pairs[i].box, line)
  {
    var n := |pairs| - 1;
    var init := pairs[..n];
    AllRowsCount(init);
    LinesOfPrefix(pairs, n, n);
    if i < n {
      AllRowsAt(init, i, line);
      LinesOfPrefix(pairs, n, i);
    }
  }

  lemma {:induction false} AllRowsCount(pairs: seq<Placed>)
    ensures |AllRows(pairs)| == LinesOf(pairs, |pairs|)
  {
    if pairs != [] {
      AllRowsCount(pairs[..|pairs| - 1]);
      LinesOfPrefix(pairs, |pairs| - 1, |pairs| - 1);
    }
  }

  /** The rows under a source are those of the boxes from the first under it to the last. */
  lemma {:induction false} RowsUnderAre(pairs: seq<Placed>, source: nat, k: nat, m: nat)
    requires k <= m <= |pairs| && forall i :: 0 <= i < |pairs| ==> (pairs[i].source == source <==> k <= i < m)
    ensures RowsUnder(pairs, source) == AllRows(pairs[k..m])
  {
    hide BoxRows;
    if pairs != [] {
      var n := |pairs| - 1;
      RowsUnderAre(pairs[..n], source, Min(k, n), Min(m, n));
      assert pairs[n].source == source <==> k <= n < m;
      if k <= n < m {
        SliceBefore(pairs, k, m);
      } else {
        SliceKept(pairs, n, k, m);
      }
    }
  }

  lemma SliceBefore(pairs: seq<Placed>, k: nat, m: nat)
    requires k < m == |pairs|
    ensures pairs[k..m] != [] && pairs[k..m][|pairs[k..m]| - 1] == pairs[m - 1]
    ensures pairs[k..m][..|pairs[k..m]| - 1] == pairs[..m - 1][k..m - 1]
  {
  }

  lemma SliceKept(pairs: seq<Placed>, n: nat, k: nat, m: nat)
    requires k <= m <= |pairs| && n <= |pairs| && (m <= n || k == m)
    ensures pairs[..n][Min(k, n)..Min(m, n)] == pairs[k..m]
  {
  }

  lemma BetweenIsUnder(pairs: seq<Placed>, k: nat, m: nat, source: nat)
    requires SourcesAscend(pairs) && Above(pairs, k, source) && Above(pairs, m, source + 1)
    ensures k <= m && RowsUnder(pairs, source) == AllRows(pairs[k..m])
    ensures |RowsUnder(pairs, source)| == LinesOf(pairs, m) - LinesOf(pairs, k)
  {
    AllAbove(pairs, k, source);
    AllAbove(pairs, m, source + 1);
    assert m < |pairs| ==> !(pairs[m].source < source);
    RowsUnderAre(pairs, source, k, m);
    AllRowsCount(pairs[k..m]);
    LinesOfSlice(pairs, k, m, m - k);
  }

  /** How many boxes are above a source row. */
  lemma BoxesAbove(pairs: seq<Placed>, source: nat) returns (k: nat)
    requires SourcesAscend(pairs)
    ensures Above(pairs, k, source)
  {
    k := 0;
    while k < |pairs| && pairs[k].source < source
      invariant k <= |pairs| && (k > 0 ==> pairs[k - 1].source < source)
    {
      k := k + 1;
    }
  }

  /** The rows of the first `n` sources: one each and all the lines of the boxes under them. */
  lemma {:induction false} FlatLength(pairs: seq<Placed>, start: nat, n: nat, k: nat)
    requires SourcesAscend(pairs) && Above(pairs, k, start + n) && (pairs != [] ==> pairs[0].source >= start)
    ensures |Flat(pairs, start, n)| == n + LinesOf(pairs, k)
  {
    if n > 0 {
      var before := BoxesAbove(pairs, start + n - 1);
      FlatLength(pairs, start, n - 1, before);
      BetweenIsUnder(pairs, before, k, start + n - 1);
    }
  }

  lemma {:induction false} FlatPrefix(pairs: seq<Placed>, start: nat, n: nat, m: nat)
    requires n <= m
    ensures Flat(pairs, start, n) <= Flat(pairs, start, m)
    decreases m
  {
    if n < m {
      FlatPrefix(pairs, start, n, m - 1);
    }
  }

  /** Where a source row is: after the sources and the boxes above it. */
  lemma SourceIsAt(pairs: seq<Placed>, start: nat, total: nat, n: nat, k: nat)
    requires SourcesAscend(pairs) && (pairs != [] ==> pairs[0].source >= start) && n < total
             && Above(pairs, k, start + n)
    ensures n + LinesOf(pairs, k) < |Flat(pairs, start, total)|
    ensures Flat(pairs, start, total)[n + LinesOf(pairs, k)] == SourceRow(start + n)
  {
    FlatLength(pairs, start, n, k);
    FlatPrefix(pairs, start, n + 1, total);
    assert Flat(pairs, start, n + 1)[|Flat(pairs, start, n)|] == SourceRow(start + n);
  }

  /** Where a box's line is: after its source row and the boxes before it. */
  lemma BoxIsAt(pairs: seq<Placed>, start: nat, total: nat, i: nat, line: nat)
    requires SourcesAscend(pairs) && i < |pairs| && start <= pairs[0].source && pairs[i].source < start + total
    requires line < |pairs[i].box.lines|
    ensures start <= pairs[i].source
    ensures var at := pairs[i].source - start + 1 + LinesOf(pairs, i) + line;
            at < |Flat(pairs, start, total)|
                && Flat(pairs, start, total)[at] == BoxRow(pairs[i].source, pairs[i].box, line)
  {
    hide Flat, RowsUnder, AllRows;
    var source := pairs[i].source;
    assert i > 0 ==> pairs[0].source <= source;
    var n := source - start;
    var k := BoxesAbove(pairs, source);
    var m := BoxesAbove(pairs, source + 1);
    AllAbove(pairs, k, source);
    AllAbove(pairs, m, source + 1);
    FlatLength(pairs, start, n, k);
    BetweenIsUnder(pairs, k, m, source);
    BoxAmongThem(pairs, k, m, i, line);
    FlatPrefix(pairs, start, n + 1, total);
    LinesOfGrows(pairs, k, i);
    FlatNext(pairs, start, n);
    InThird(Flat(pairs, start, n), SourceRow(source), RowsUnder(pairs, source),
            LinesOf(pairs, i) - LinesOf(pairs, k) + line);
  }

  lemma FlatNext(pairs: seq<Placed>, start: nat, n: nat)
    ensures Flat(pairs, start, n + 1) == Flat(pairs, start, n) + [SourceRow(start + n)] + RowsUnder(pairs, start + n)
  {
  }

  lemma BoxAmongThem(pairs: seq<Placed>, k: nat, m: nat, i: nat, line: nat)
    requires k <= i < m <= |pairs| && line < |pairs[i].box.lines|
    ensures 0 <= LinesOf(pairs, i) - LinesOf(pairs, k) + line < |AllRows(pairs[k..m])|
    ensures AllRows(pairs[k..m])[LinesOf(pairs, i) - LinesOf(pairs, k) + line]
            == BoxRow(pairs[i].source, pairs[i].box, line)
  {
    LinesOfSlice(pairs, k, m, i - k);
    AllRowsAt(pairs[k..m], i - k, line);
  }

  lemma InThird(a: seq<AnnotationRow>, row: AnnotationRow, b: seq<AnnotationRow>, i: nat)
    requires i < |b|
    ensures (a + [row] + b)[|a| + 1 + i] == b[i]
  {
  }

  // ---- the layout --------------------------------------------------------

  datatype AnnotationLayout = AnnotationLayout(range: Range, annotations: seq<Placed>, length: nat)
  {
    function Total(): nat { Monus(range.end, range.start) }

    ghost function Rows(): seq<AnnotationRow> {
      Flat(annotations, range.start, Total())
    }

    ghost predicate PlacedAt(i: nat)
      requires i < |annotations|
    {
      && Contains(range, annotations[i].source)
      && annotations[i].visual == annotations[i].source - range.start + 1 + LinesOf(annotations, i)
    }

    ghost predicate Valid() {
      && SourcesAscend(annotations) && (forall i :: 0 <= i < |annotations| ==> PlacedAt(i))
      && length == Total() + LinesOf(annotations, |annotations|)
    }

    /** The flat list has as many rows as the layout says. */
    lemma LengthIsRight()
      requires Valid()
      ensures |Rows()| == length
    {
      LastAbove();
      FlatLength(annotations, range.start, Total(), |annotations|);
    }

    lemma LastAbove()
      requires Valid()
      ensures Above(annotations, |annotations|, range.start + Total())
      ensures annotations != [] ==> range.start <= annotations[0].source
    {
      if annotations != [] {
        assert PlacedAt(0) && PlacedAt(|annotations| - 1);
      }
    }

    /** Where the row of source `n` of the range is, when `k` boxes are above it. */
    lemma SourceRowAt(n: nat, k: nat)
      requires Valid() && n < Total() && Above(annotations, k, range.start + n)
      ensures n + LinesOf(annotations, k) < |Rows()|
      ensures Rows()[n + LinesOf(annotations, k)] == SourceRow(range.start + n)
    {
      hide SourcesAscend, Flat, LinesOf;
      LastAbove();
      SourceIsAt(annotations, range.start, Total(), n, k);
    }

    lemma BoxRowAt(i: nat, line: nat)
      requires Valid() && i < |annotations| && line < |annotations[i].box.lines|
      ensures annotations[i].visual + line < |Rows()|
      ensures Rows()[annotations[i].visual + line] == BoxRow(annotations[i].source, annotations[i].box, line)
    {
      hide SourcesAscend, Flat, LinesOf;
      LastAbove();
      assert PlacedAt(i);
      BoxIsAt(annotations, range.start, Total(), i, line);
    }

    method VisualOffsetForSource(source: nat) returns (offset: Option<nat>)
      requires Valid()
      ensures offset.Some? <==> Contains(range, source)
      ensures offset.Some? ==> offset.value < |Rows()| && Rows()[offset.value] == SourceRow(source)
    {
      hide Valid, Flat;
      if !Contains(range, source) {
        return None;
      }
      var sum, k := 0, 0;
      while k < |annotations| && annotations[k].source < source
        invariant k <= |annotations| && sum == LinesOf(annotations, k)
        invariant k > 0 ==> annotations[k - 1].source < source
      {
        sum := sum + |annotations[k].box.lines|;
        k := k + 1;
      }
      SourceRowAt(source - range.start, k);
      return Some(source - range.start + sum);
    }

    /** Looking a row up gives what the flat list has there, and nothing past its end. */
    method Row(visual: nat) returns (row: Option<AnnotationRow>)
      requires Valid()
      ensures visual < |Rows()| ==> row == Some(Rows()[visual])
      ensures visual >= |Rows()| ==> row == None
    {
      hide Valid, Flat;
      LengthIsRight();
      if visual >= length {
        return None;
      }
      var extra, k := 0, 0;
      while k < |annotations| && visual >= annotations[k].visual
        invariant k <= |annotations| && extra == LinesOf(annotations, k)
        invariant k > 0 ==> visual >= annotations[k - 1].visual + |annotations[k - 1].box.lines|
      {
        var placed := annotations[k];
        if visual < placed.visual + |placed.box.lines| {
          BoxRowAt(k, visual - placed.visual);
          return Some(BoxRow(placed.source, placed.box, visual - placed.visual));
        }
        extra := extra + |placed.box.lines|;
        k := k + 1;
      }
      SourceHere(visual, k);
      return Some(SourceRow(range.start + visual - extra));
    }

    lemma SourceHere(visual: nat, k: nat)
      requires Valid() && visual < length && k <= |annotations|
      requires k < |annotations| ==> visual < annotations[k].visual
      requires k > 0 ==> visual >= annotations[k - 1].visual + |annotations[k - 1].box.lines|
      ensures LinesOf(annotations, k) <= visual
      ensures visual < |Rows()| && Rows()[visual] == SourceRow(range.start + visual - LinesOf(annotations, k))
    {
      hide SourcesAscend, Flat;
      if k > 0 {
        assert PlacedAt(k - 1);
      }
      if k < |annotations| {
        assert PlacedAt(k);
      }
      SourceRowAt(visual - LinesOf(annotations, k), k);
    }
  }

  // ---- building it -------------------------------------------------------

  /** The boxes placed are these, in order. */
  ghost predicate Places(annotations: seq<Placed>, pairs: seq<Pair>) {
    |annotations| == |pairs| && forall i :: 0 <= i < |pairs| ==>
        Pair(annotations[i].source, annotations[i].box) == pairs[i]
  }

  ghost predicate AllPlaced(range: Range, annotations: seq<Placed>) {
    forall i :: 0 <= i < |annotations| ==>
                  && Contains(range, annotations[i].source)
                  && annotations[i].visual == annotations[i].source - range.start + 1 + LinesOf(annotations, i)
  }

  /** What has been placed: sources ascend, and each box is where its lines begin. */
  ghost predicate Placing(range: Range, annotations: seq<Placed>, pairs: seq<Pair>, extra: nat) {
    && SourcesAscend(annotations) && AllPlaced(range, annotations) && Places(annotations, pairs)
    && extra == LinesOf(annotations, |annotations|)
  }

  lemma PlacedNext(range: Range, annotations: seq<Placed>, pairs: seq<Pair>, extra: nat, source: nat,
                   box: AnnotationBox)
    requires Placing(range, annotations, pairs, extra) && Contains(range, source)
    requires forall i :: 0 <= i < |annotations| ==> annotations[i].source <= source
    ensures Placing(range, annotations + [Placed(source, source - range.start + 1 + extra, box)],
                    pairs + [Pair(source, box)], extra + |box.lines|)
  {
    hide LinesOf;
    var placed := Placed(source, source - range.start + 1 + extra, box);
    var after := annotations + [placed];
    assert AllPlaced(range, after) by {
      hide SourcesAscend, Places;
      forall i | 0 <= i < |after|
        ensures Contains(range, after[i].source)
                && after[i].visual == after[i].source - range.start + 1 + LinesOf(after, i)
      {
        LinesBefore(annotations, placed, i);
        if i < |annotations| {
          assert after[i] == annotations[i];
        }
      }
    }
    LinesBefore(annotations, placed, |annotations|);
    LinesNext(after, |annotations|);
  }

  lemma LinesBefore(annotations: seq<Placed>, placed: Placed, i: nat)
    requires i <= |annotations|
    ensures LinesOf(annotations + [placed], i) == LinesOf(annotations, i)
  {
    hide LinesOf;
    assert (annotations + [placed])[..|annotations|] == annotations;
    LinesOfPrefix(annotations + [placed], |annotations|, i);
  }

  lemma LinesNext(annotations: seq<Placed>, i: nat)
    requires i < |annotations|
    ensures LinesOf(annotations, i + 1) == LinesOf(annotations, i) + |annotations[i].box.lines|
  {
  }

  lemma NothingPlaced(range: Range)
    ensures Placing(range, [], Kept(range, []), 0)
  {
  }

  lemma PairsNext(source: nat, boxes: seq<AnnotationBox>, b: nat)
    requires b < |boxes|
    ensures PairsOf(source, boxes[..b + 1]) == PairsOf(source, boxes[..b]) + [Pair(source, boxes[b])]
  {
  }

  /** Places the boxes of one source row under it. */
  method PlaceBoxes(range: Range, annotations: seq<Placed>, extra: nat, source: nat, boxes: seq<AnnotationBox>,
                    ghost pairs: seq<Pair>)
    returns (after: seq<Placed>, extraAfter: nat)
    requires Placing(range, annotations, pairs, extra) && Contains(range, source)
    requires forall i :: 0 <= i < |annotations| ==> annotations[i].source < source
    ensures Placing(range, after, pairs + PairsOf(source, boxes), extraAfter)
    ensures forall i :: 0 <= i < |after| ==> after[i].source <= source
  {
    hide Placing;
    after, extraAfter := annotations, extra;
    assert pairs + PairsOf(source, boxes[..0]) == pairs;
    for b := 0 to |boxes|
      invariant Placing(range, after, pairs + PairsOf(source, boxes[..b]), extraAfter)
      invariant forall i :: 0 <= i < |after| ==> after[i].source <= source
    {
      PlacedNext(range, after, pairs + PairsOf(source, boxes[..b]), extraAfter, source, boxes[b]);
      PairsNext(source, boxes, b);
      assert pairs + PairsOf(source, boxes[..b]) + [Pair(source, boxes[b])] == pairs + PairsOf(source, boxes[..b + 1]);
      after := after + [Placed(source, source - range.start + 1 + extraAfter, boxes[b])];
      extraAfter := extraAfter + |boxes[b].lines|;
    }
    assert boxes[..|boxes|] == boxes;
  }

  /** Places every box in the range; the layout stands for the range with those boxes in it. */
  method NewLayout(range: Range, anchored: seq<Anchored>) returns (layout: AnnotationLayout)
    requires KeysAscend(anchored)
    ensures layout.Valid() && layout.range == range && Places(layout.annotations, Kept(range, anchored))
  {
    var annotations: seq<Placed> := [];
    var extra := 0;
    NothingPlaced(range);
    for a := 0 to |anchored|
      invariant Placing(range, annotations, Kept(range, anchored[..a]), extra)
      invariant forall i, b :: 0 <= i < |annotations| && a <= b < |anchored| ==>
                annotations[i].source < anchored[b].source
    {
      hide Placing, PairsOf;
      assert anchored[..a + 1][..a] == anchored[..a];
      if Contains(range, anchored[a].source) {
        annotations, extra := PlaceBoxes(range, annotations, extra, anchored[a].source, anchored[a].boxes,
                                         Kept(range, anchored[..a]));
      } else {
        assert Kept(range, anchored[..a + 1]) == Kept(range, anchored[..a]);
      }
    }
    assert anchored[..|anchored|] == anchored;
    layout := AnnotationLayout(range, annotations, Monus(range.end, range.start) + extra);
    assert forall i :: 0 <= i < |annotations| ==> layout.PlacedAt(i);
  }
}

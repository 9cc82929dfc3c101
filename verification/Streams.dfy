/**
 The stream renderers hold: an incremental document, a revision counter and the change log. Ghost
 fields remember every version of the document since the last replacement and every report made.
 */
module Streams {
  import opened Bytes
  import opened LineIndexing
  import opened Targets
  import opened Settling
  import opened TailParses
  import opened Incremental
  import opened ChangeLog

  datatype Update = Update(revision: nat, changedSource: Range, changedBlocks: Range, reset: bool, finished: bool)

  datatype Changes = Changes(firstBlock: nat, firstLine: nat, replaced: bool)

  /** Every answer since the last replacement is right. */
  ghost predicate AllTruthful(changes: seq<Entry>, replacedAt: nat, history: seq<seq<Block>>, now: seq<Block>) {
    forall i :: 0 <= i < |history| ==> Truthful(changes, replacedAt + i, history[i], now)
  }

  ghost function Newest(entries: seq<Entry>): Option<Entry> {
    if entries == [] then None else Some(entries[|entries| - 1])
  }

  ghost predicate EntriesUpTo(changes: seq<Entry>, block: nat) {
    forall i :: 0 <= i < |changes| ==> changes[i].place.block <= block
  }

  class MarkdownStream {
    const inner: IncrementalDocument
    var revision: nat
    var sourceRevision: nat
    var finished: bool
    var changes: seq<Entry>
    var replacedAt: nat

    /** The blocks at revision `replacedAt + i`. */
    ghost var history: seq<seq<Block>>
    /** Every report that was not skipped, oldest first. */
    ghost var reports: seq<Entry>
    /** No append since the last replacement misreported what it changed. */
    ghost var honest: bool
    /** No answer can point past the document before settled blocks are given up on again. */
    ghost var steady: bool

    /** The log is right about a document that has these blocks and will not change before `frontier` by itself. */
    ghost predicate Logged(blocks: seq<Block>, frontier: nat)
      reads this`revision, this`changes, this`replacedAt, this`history, this`reports, this`honest, this`steady
    {
      && replacedAt <= revision && |history| == revision - replacedAt + 1 && history[revision - replacedAt] == blocks
      && Summarizes(changes, reports) && Newest(changes) == Newest(reports)
      && (forall i :: 0 <= i < |changes| ==> replacedAt < changes[i].at <= revision)
      && (steady ==> EntriesUpTo(changes, frontier))
      && (honest ==> AllTruthful(changes, replacedAt, history, blocks))
    }

    ghost predicate Valid()
      reads this, inner, inner.index
    {
      inner.Valid() && Logged(inner.blocks, inner.Frontier())
    }

    constructor (parse: Parser)
      requires ParserContract(parse)
      ensures Valid() && fresh(inner) && fresh(inner.index) && honest && steady && inner.parse == parse
      ensures revision == replacedAt == 0 && !finished && inner.source == [] && reports == []
      ensures inner.blocks == [] && inner.settled == UNSETTLED && inner.definitions == map[] && inner.fence == None
    {
      hide IncrementalDocument.Valid, AllTruthful, Summarizes, ParserContract;
      inner := new IncrementalDocument(parse);
      revision, sourceRevision, finished, changes, replacedAt := 0, 0, false, [], 0;
      history, reports, honest, steady := [[]], [], true, true;
      new;
      NothingPushed();
    }

    /** Pushing `chunk` makes the document give up on settled blocks. */
    ghost predicate GivesUpOn(chunk: Source)
      requires inner.Valid()
      reads inner, inner.index
    {
      chunk != [] && inner.ParsesTwice(chunk)
    }

    lemma GivesUpMeans(chunk: Source)
      requires inner.Valid()
      ensures GivesUpOn(chunk) <==> chunk != [] && inner.ParsesTwice(chunk)
    {
    }

    /** Appends to the document; the report as a place. */
    method AppendChunk(chunk: Source) returns (place: Place, ghost right: bool)
      requires inner.Valid()
      modifies inner, inner.index
      ensures inner.Valid() && inner.index == old(inner.index) && inner.source == old(inner.source) + chunk
      requires chunk != []
      ensures right <==> !(old(inner.fence).Some? && old(GivesUpOn(chunk)))
      ensures right ==>
              SameUpTo(old(inner.blocks), inner.blocks, place)
              && place.block == old(inner.FirstChange(chunk)) <= inner.Frontier()
      ensures old(inner.Basis(chunk)).Some? ==>
                Reparsed(inner.parse, inner.source, old(inner.blocks), old(inner.Basis(chunk)), old(inner.definitions),
                         old(inner.FirstChange(chunk)), inner.blocks, inner.definitions, inner.settled,
                             inner.fence.Some?)
      ensures old(inner.fence) == None ==> place.line == 0
      ensures !old(GivesUpOn(chunk)) ==> old(inner.Frontier()) <= inner.Frontier()
    {
      hide *;
      GivesUpMeans(chunk);
      var first, line;
      ghost var resumed;
      first, line, right, resumed := inner.Append(chunk);
      place := Place(first, line);
      ReportIsAPlace(old(inner.blocks), inner.blocks, first, line);
    }

    method Push(chunk: Source) returns (update: Update, ghost place: Place)
      requires Valid()
      modifies this, inner, inner.index
      ensures chunk != [] && old(inner.Basis(chunk)).Some? ==>
                Reparsed(inner.parse, inner.source, old(inner.blocks), old(inner.Basis(chunk)), old(inner.definitions),
                         old(inner.FirstChange(chunk)), inner.blocks, inner.definitions, inner.settled,
                             inner.fence.Some?)
      // What is reported, and that it is recorded unless it is behind the last block.
      ensures chunk != [] && !(old(inner.fence).Some? && old(GivesUpOn(chunk))) ==>
              place.block == old(inner.FirstChange(chunk))
      ensures old(inner.fence) == None ==> place.line == 0
      ensures chunk == [] ==> place == Place(|inner.blocks|, 0)
      ensures reports == if place.block >= |inner.blocks| then old(reports) else old(reports) + [Entry(revision, place)]
      ensures Valid() && inner.index == old(inner.index) && inner.source == old(inner.source) + chunk
      ensures replacedAt == old(replacedAt) && !finished
      // Every answer stays right unless an open fence is closed and settled blocks are given up on.
      ensures honest <==> old(honest) && !(old(inner.fence).Some? && old(GivesUpOn(chunk)))
      // No answer points past the document as long as blocks given up on are replaced by others.
      ensures steady <==>
                if old(GivesUpOn(chunk)) then old(inner.fence) == None && update.changedBlocks.start < |inner.blocks|
                else old(steady) || update.changedBlocks.start < |inner.blocks|
      ensures chunk == [] && !old(finished) ==> revision == old(revision) && changes == old(changes)
      ensures chunk != [] || old(finished) ==> revision == old(revision) + 1
      ensures update.revision == revision && update.changedSource == Range(|old(inner.source)|, |inner.source|)
      ensures update.reset == old(finished) && update.changedBlocks.end == |inner.blocks|
      ensures update.changedBlocks.start == Min(place.block, |inner.blocks|)
      ensures honest ==> update.changedBlocks.start <= |old(inner.blocks)|
                         && inner.blocks[..update.changedBlocks.start]
                             == old(inner.blocks)[..update.changedBlocks.start]
    {
      hide IncrementalDocument.Valid, SameUpTo, SamePrefix, MarkdownStream.Logged, IncrementalDocument.ParsesTwice,
           Reparsed, IncrementalDocument.Basis, IncrementalDocument.FirstChange, IncrementalDocument.Frontier,
           MarkdownStream.GivesUpOn;
      GivesUpMeans(chunk);
      place := Place(|inner.blocks|, 0);
      if chunk == [] && !finished {
        update := Unchanged();
        assert inner.source + chunk == inner.source;
        return;
      }
      var start := |inner.source|;
      ghost var was := inner.blocks;
      var reset := finished;
      finished := false;
      var reported := Place(|inner.blocks|, 0);
      ghost var right, gives, frontier := true, GivesUpOn(chunk), inner.Frontier();
      if chunk != [] {
        reported, right := AppendChunk(chunk);
        sourceRevision := sourceRevision + 1;
      } else {
        assert inner.source + chunk == inner.source;
        NothingChanged(was);
      }
      place := reported;
      Publish(reported, was, right, gives, frontier);
      UpdateIsHonest(was, inner.blocks, reported, right);
      update := UpdateFor(Range(start, |inner.source|), reported.block, reset);
    }

    method Replace(text: Source) returns (update: Update)
      requires Valid()
      modifies this, inner, inner.index
      ensures Valid() && honest && inner.source == text && fresh(inner.index)
      ensures TailIs(inner.blocks, 0, inner.parse(text, 0, []).blocks)
              && inner.definitions == inner.parse(text, 0, []).definitions
      ensures revision == old(revision) + 1 && replacedAt == revision && !finished && changes == []
      ensures update == Update(revision, Range(0, |text|), Range(0, |inner.blocks|), true, false)
    {
      hide Truthful, Summarizes, IncrementalDocument.Valid, TailIs;
      inner.Replace(text);
      sourceRevision := sourceRevision + 1;
      finished := false;
      revision := revision + 1;
      changes := [];
      replacedAt := revision;
      history, reports, honest, steady := [inner.blocks], [], true, true;
      NothingChanged(inner.blocks);
      assert [inner.blocks][0] == inner.blocks;
      update := UpdateFor(Range(0, |inner.source|), 0, true);
    }

    method Finish() returns (update: Update)
      requires Valid()
      modifies this`finished, this`revision, this`history
      ensures Valid() && finished && revision == old(revision) + if old(finished) then 0 else 1
      ensures update == Update(revision, Range(|inner.source|, |inner.source|), Range(|inner.blocks|, |inner.blocks|),
                               false, true)
    {
      hide Truthful, IncrementalDocument.Valid;
      if finished {
        update := Unchanged();
        return;
      }
      finished := true;
      revision := revision + 1;
      history := history + [inner.blocks];
      UpToDate(changes, revision, inner.blocks);
      update := UpdateFor(Range(|inner.source|, |inner.source|), |inner.blocks|, false);
    }

    /** What changed since a revision a renderer has seen. */
    function ChangesSince(since: nat): (r: Changes)
      reads this, inner
      ensures since < replacedAt <==> r.replaced
    {
      if since < replacedAt then Changes(0, 0, true)
      else
        var place := Answer(changes, since, |inner.blocks|);
        Changes(place.block, place.line, false)
    }

    /** The answer is right about the document as it was then and as it is now, and it is the one a
        scan over every report since then would give. */
    lemma ChangesSinceIsTrue(since: nat)
      requires Valid() && replacedAt <= since <= revision
      ensures !ChangesSince(since).replaced
      ensures honest ==>
                var place := Clamp(Place(ChangesSince(since).firstBlock, ChangesSince(since).firstLine),
                                   |inner.blocks|);
                SamePrefix(history[since - replacedAt], inner.blocks, place.block, place.line)
      ensures var place := Place(ChangesSince(since).firstBlock, ChangesSince(since).firstLine);
              match Earliest(reports, since)
              case Some(earliest) => place == earliest
              case None => place == Place(|inner.blocks|, 0)
    {
      hide IncrementalDocument.Valid, NotAfter, Earliest;
      assert Lookup(changes, since) == Earliest(reports, since);
      assert honest ==> Truthful(changes, replacedAt + (since - replacedAt), history[since - replacedAt], inner.blocks);
    }

    /** No answer points past the document if and only if the newest recorded report does not. */
    lemma AnswersFitIffNewestDoes()
      requires Valid()
      ensures (forall since :: replacedAt <= since <= revision ==> ChangesSince(since).firstBlock <= |inner.blocks|)
         <==> (Newest(reports).Some? ==> Newest(reports).value.place.block <= |inner.blocks|)
      ensures steady && replacedAt <= revision ==>
                forall since :: replacedAt <= since <= revision ==> ChangesSince(since).firstBlock <= |inner.blocks|
    {
      hide IncrementalDocument.Valid, AllTruthful, Lookup;
      AnswersFitIff(changes, replacedAt, revision, |inner.blocks|);
      forall since: nat | replacedAt <= since <= revision
        ensures ChangesSince(since).firstBlock == Answer(changes, since, |inner.blocks|).block
      {
      }
      inner.FrontierInBounds();
    }

    /** The next revision, whose report is `place`. */
    method Publish(place: Place, ghost was: seq<Block>, ghost right: bool, ghost gives: bool, ghost frontier: nat)
      requires inner.Valid() && Logged(was, frontier)
      requires right ==>
               SameUpTo(was, inner.blocks, place)
               && (place.block < |inner.blocks| ==> place.block <= inner.Frontier())
      requires !gives ==> right && frontier <= inner.Frontier()
      modifies this`revision, this`honest, this`steady, this`changes, this`history, this`reports
      ensures Valid() && revision == old(revision) + 1
      ensures reports == if place.block >= |inner.blocks| then old(reports) else old(reports) + [Entry(revision, place)]
      ensures honest <==> old(honest) && right
      ensures steady <==>
              if gives then right && place.block < |inner.blocks|
              else old(steady) || place.block < |inner.blocks|
    {
      hide SameUpTo, Truthful, IncrementalDocument.Valid, AllTruthful, EntriesUpTo, Newest, Summarizes,
           IncrementalDocument.Frontier;
      revision := revision + 1;
      honest := honest && right;
      steady := if gives then right && place.block < |inner.blocks| else steady || place.block < |inner.blocks|;
      UpToLater(changes, frontier, inner.Frontier());
      Record(place, was);
    }

    method Record(place: Place, ghost was: seq<Block>)
      requires inner.Valid() && replacedAt < revision && |history| == revision - replacedAt
               && history[|history| - 1] == was
      requires Summarizes(changes, reports) && Newest(changes) == Newest(reports)
      requires forall i :: 0 <= i < |changes| ==> replacedAt < changes[i].at < revision
      requires honest ==> SameUpTo(was, inner.blocks, place)
      requires honest ==> AllTruthful(changes, replacedAt, history, was)
      requires steady ==> if place.block < |inner.blocks| then place.block <= inner.Frontier()
               else EntriesUpTo(changes, inner.Frontier())
      modifies this`changes, this`history, this`reports
      ensures Valid() && history == old(history) + [inner.blocks]
      ensures reports == if place.block >= |inner.blocks| then old(reports) else old(reports) + [Entry(revision, place)]
    {
      hide SameUpTo, Truthful, IncrementalDocument.Valid, Lookup, Earliest, AllTruthful, EntriesUpTo, Newest, Stacked,
           Popped, IncrementalDocument.Frontier;
      ghost var before := changes;
      if place.block < |inner.blocks| {
        while changes != [] && !Before(changes[|changes| - 1].place, place)
          invariant changes <= before && Popped(changes, place) == Popped(before, place)
          decreases |changes|
          modifies this`changes
        {
          PopOne(changes, place);
          changes := changes[..|changes| - 1];
        }
        PopOne(changes, place);
        RecordRefines(before, reports, Entry(revision, place));
        RecordedUpTo(before, Entry(revision, place));
        NewestPushed(changes, Entry(revision, place));
        NewestPushed(reports, Entry(revision, place));
        UpToLater(changes + [Entry(revision, place)], place.block, inner.Frontier());
        changes := changes + [Entry(revision, place)];
        reports := reports + [Entry(revision, place)];
      }
      if honest {
        AllCarryOver(before, replacedAt, history, was, inner.blocks, Entry(revision, place), changes);
      }
      OneMoreVersion(changes, replacedAt, history, inner.blocks, revision);
      history := history + [inner.blocks];
    }

    method Unchanged() returns (update: Update)
      ensures update == Update(revision, Range(|inner.source|, |inner.source|), Range(|inner.blocks|, |inner.blocks|),
                               false, finished)
    {
      update := UpdateFor(Range(|inner.source|, |inner.source|), |inner.blocks|, false);
    }

    method UpdateFor(changedSource: Range, firstBlock: nat, reset: bool) returns (update: Update)
      ensures update == Update(revision, changedSource, Range(Min(firstBlock, |inner.blocks|), |inner.blocks|), reset,
                               finished)
    {
      update := Update(revision, changedSource, Range(Min(firstBlock, |inner.blocks|), |inner.blocks|), reset,
                       finished);
    }
  }

  lemma NothingPushed()
    ensures Summarizes([], []) && AllTruthful([], 0, [[]], [])
  {
    hide SameUpTo;
    NothingChanged([]);
  }

  lemma NothingChanged(blocks: seq<Block>)
    ensures SameUpTo(blocks, blocks, Place(|blocks|, 0))
    ensures Summarizes([], []) && forall r: nat :: Truthful([], r, blocks, blocks)
  {
  }

  lemma AllCarryOver(changes: seq<Entry>, replacedAt: nat, history: seq<seq<Block>>, was: seq<Block>, now: seq<Block>,
                     report: Entry, after: seq<Entry>)
    requires AllTruthful(changes, replacedAt, history, was) && replacedAt + |history| <= report.at
    requires Stacked(changes) && forall i :: 0 <= i < |changes| ==> changes[i].at < report.at
    requires SameUpTo(was, now, report.place)
    requires after == if report.place.block >= |now| then changes else Popped(changes, report.place) + [report]
    ensures AllTruthful(after, replacedAt, history, now)
  {
    hide SameUpTo, Truthful;
    forall i | 0 <= i < |history|
      ensures Truthful(after, replacedAt + i, history[i], now)
    {
      TruthCarriesOver(changes, replacedAt + i, history[i], was, now, report, after);
    }
  }

  lemma UpToDate(changes: seq<Entry>, revision: nat, blocks: seq<Block>)
    requires Stacked(changes) && forall i :: 0 <= i < |changes| ==> changes[i].at <= revision
    ensures Truthful(changes, revision, blocks, blocks)
  {
    LookupIsFirstAfter(changes, revision);
    BoundaryAt(changes, revision, |changes|);
  }

  lemma PopOne(changes: seq<Entry>, place: Place)
    ensures Popped(changes, place)
         == if changes == [] || Before(changes[|changes| - 1].place, place) then changes
             else Popped(changes[..|changes| - 1], place)
  {
  }

  lemma NewestPushed(entries: seq<Entry>, entry: Entry)
    ensures Newest(entries + [entry]) == Some(entry)
  {
  }

  /** The present version is up to date. */
  lemma OneMoreVersion(changes: seq<Entry>, replacedAt: nat, history: seq<seq<Block>>, blocks: seq<Block>,
                       revision: nat)
    requires Stacked(changes) && (forall i :: 0 <= i < |changes| ==> changes[i].at <= revision)
             && revision == replacedAt + |history|
    ensures AllTruthful(changes, replacedAt, history, blocks) ==>
            AllTruthful(changes, replacedAt, history + [blocks], blocks)
  {
    hide Truthful, Stacked;
    UpToDate(changes, revision, blocks);
  }

  lemma RecordedUpTo(changes: seq<Entry>, entry: Entry)
    requires Stacked(changes)
    ensures EntriesUpTo(Popped(changes, entry.place) + [entry], entry.place.block)
  {
    hide Popped;
    PoppedKeepsEarlier(changes, entry.place);
  }

  lemma UpToLater(changes: seq<Entry>, block: nat, later: nat)
    ensures EntriesUpTo(changes, block) && block <= later ==> EntriesUpTo(changes, later)
  {
  }

  lemma ReportIsAPlace(was: seq<Block>, now: seq<Block>, first: nat, line: nat)
    ensures SameUpTo(was, now, Place(first, line)) == SamePrefix(was, now, first, line)
  {
    hide SamePrefix;
  }

  lemma UpdateIsHonest(was: seq<Block>, now: seq<Block>, place: Place, right: bool)
    requires right ==> SameUpTo(was, now, place)
    ensures right ==> place.block <= |was| && place.block <= |now|
                      && now[..Min(place.block, |now|)] == was[..Min(place.block, |now|)]
  {
  }
}

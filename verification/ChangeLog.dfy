/**
 The change log of a stream: a stack of (revision, first change) entries that answers "what is the
 earliest change after revision r" without keeping every report.
 */
module ChangeLog {
  import CodeBlocks
  import opened Bytes
  import opened Targets
  import opened Incremental
  import opened FenceExtension

  /** A place in the document: a block, and a line of it when it is a code block. */
  datatype Place = Place(block: nat, line: nat)

  datatype Entry = Entry(at: nat, place: Place)

  predicate Before(a: Place, b: Place) {
    a.block < b.block || (a.block == b.block && a.line < b.line)
  }

  function Earlier(a: Place, b: Place): Place { if Before(b, a) then b else a }

  /** The earliest place reported after `revision`, found by looking at every report. */
  ghost function Earliest(reports: seq<Entry>, revision: nat): Option<Place> {
    if reports == [] then None
    else
      var rest := Earliest(reports[..|reports| - 1], revision);
      var last := reports[|reports| - 1];
      if last.at <= revision then rest
      else if rest.None? then Some(last.place)
      else Some(Earlier(rest.value, last.place))
  }

  /** How many leading entries are no newer than `revision`: `partition_point` on the stack. */
  function NotAfter(changes: seq<Entry>, revision: nat): (r: nat)
    ensures r <= |changes|
  {
    if changes == [] then 0
    else if changes[|changes| - 1].at <= revision then |changes|
    else NotAfter(changes[..|changes| - 1], revision)
  }

  function Lookup(changes: seq<Entry>, revision: nat): Option<Place> {
    var position := NotAfter(changes, revision);
    if position < |changes| then Some(changes[position].place) else None
  }

  /** Newer entries are later places. */
  ghost predicate Stacked(changes: seq<Entry>) {
    forall i, j :: 0 <= i < j < |changes| ==>
        changes[i].at < changes[j].at && Before(changes[i].place, changes[j].place)
  }

  /** The stack answers every query as a scan of all reports would. */
  ghost predicate Summarizes(changes: seq<Entry>, reports: seq<Entry>) {
    Stacked(changes) && forall r: nat :: Lookup(changes, r) == Earliest(reports, r)
  }

  lemma {:induction false} LookupIsFirstAfter(changes: seq<Entry>, revision: nat)
    requires Stacked(changes)
    ensures forall i :: 0 <= i < |changes| ==> (changes[i].at <= revision <==> i < NotAfter(changes, revision))
  {
    if changes != [] && changes[|changes| - 1].at > revision {
      LookupIsFirstAfter(changes[..|changes| - 1], revision);
    }
  }

  /** Dropping entries at or after `place` from the top of the stack. */
  function Popped(changes: seq<Entry>, place: Place): (r: seq<Entry>)
    ensures r <= changes
  {
    if changes == [] || Before(changes[|changes| - 1].place, place) then changes
    else Popped(changes[..|changes| - 1], place)
  }

  lemma {:induction false} PoppedKeepsEarlier(changes: seq<Entry>, place: Place)
    requires Stacked(changes)
    ensures var kept := Popped(changes, place);
            forall i :: 0 <= i < |changes| ==> (i < |kept| <==> Before(changes[i].place, place))
  {
    if changes != [] && !Before(changes[|changes| - 1].place, place) {
      PoppedKeepsEarlier(changes[..|changes| - 1], place);
    }
  }

  /** After recording, a query older than the new entry gets the earlier of the old answer and the
      new place; a query as new as the entry gets nothing. */
  lemma LookupAfterRecord(changes: seq<Entry>, entry: Entry, revision: nat)
    requires Stacked(changes) && forall i :: 0 <= i < |changes| ==> changes[i].at < entry.at
    ensures var recorded := Popped(changes, entry.place) + [entry];
            && Stacked(recorded)
            && Lookup(recorded, revision)
               == if entry.at <= revision then None
                  else
                    match Lookup(changes, revision)
                    case None => Some(entry.place)
                    case Some(place) => Some(Earlier(place, entry.place))
    ensures entry.at <= revision ==> Lookup(changes, revision) == None
  {
    hide Popped, NotAfter;
    var kept := Popped(changes, entry.place);
    var recorded := kept + [entry];
    PoppedKeepsEarlier(changes, entry.place);
    RecordedStacked(changes, kept, entry);
    hide Stacked;
    var k := NotAfter(changes, revision);
    BoundaryIs(changes, revision);
    if entry.at > revision {
      if k < |kept| {
        assert recorded[k] == changes[k];
        assert k > 0 ==> recorded[k - 1] == changes[k - 1];
        BoundaryAt(recorded, revision, k);
      } else {
        assert |kept| > 0 ==> recorded[|kept| - 1] == changes[|kept| - 1];
        NotNewer(changes, revision, |kept|);
        BoundaryAt(recorded, revision, |kept|);
      }
    } else {
      BoundaryAt(recorded, revision, |recorded|);
      BoundaryAt(changes, revision, |changes|);
    }
  }

  lemma RecordedStacked(changes: seq<Entry>, kept: seq<Entry>, entry: Entry)
    requires Stacked(changes) && kept <= changes && forall i :: 0 <= i < |changes| ==> changes[i].at < entry.at
    requires forall i :: 0 <= i < |kept| ==> Before(changes[i].place, entry.place)
    ensures Stacked(kept + [entry])
  {
  }

  /** The boundary of a lookup: what it answers is the first entry newer than the revision. */
  lemma BoundaryIs(changes: seq<Entry>, revision: nat)
    requires Stacked(changes)
    ensures var k := NotAfter(changes, revision);
            (k > 0 ==> changes[k - 1].at <= revision) && (k < |changes| ==> changes[k].at > revision)
  {
    hide NotAfter;
    LookupIsFirstAfter(changes, revision);
  }

  lemma NotNewer(changes: seq<Entry>, revision: nat, n: nat)
    requires Stacked(changes) && n <= NotAfter(changes, revision)
    ensures n > 0 ==> changes[n - 1].at <= revision
  {
    hide NotAfter;
    LookupIsFirstAfter(changes, revision);
  }

  lemma BoundaryAt(changes: seq<Entry>, revision: nat, k: nat)
    requires Stacked(changes) && k <= |changes|
    requires k > 0 ==> changes[k - 1].at <= revision
    requires k < |changes| ==> changes[k].at > revision
    ensures NotAfter(changes, revision) == k
  {
    hide NotAfter;
    LookupIsFirstAfter(changes, revision);
  }

  /** Recording on the stack is recording in the list of all reports. */
  lemma RecordRefines(changes: seq<Entry>, reports: seq<Entry>, entry: Entry)
    requires Summarizes(changes, reports)
    requires forall i :: 0 <= i < |changes| ==> changes[i].at < entry.at
    ensures Summarizes(Popped(changes, entry.place) + [entry], reports + [entry])
  {
    hide Popped, Lookup;
    var recorded := Popped(changes, entry.place) + [entry];
    forall r: nat
      ensures Lookup(recorded, r) == Earliest(reports + [entry], r)
    {
      assert (reports + [entry])[..|reports|] == reports;
      LookupAfterRecord(changes, entry, r);
    }
    LookupAfterRecord(changes, entry, 0);
  }

  // ---- what an answer means for the document -------------------------------

  ghost predicate SameUpTo(a: seq<Block>, b: seq<Block>, place: Place) {
    SamePrefix(a, b, place.block, place.line)
  }

  /** Agreement composes: two versions agree up to the earlier of the places their common neighbour
      agrees up to. */
  lemma SameUpToComposes(a: seq<Block>, b: seq<Block>, c: seq<Block>, p: Place, q: Place)
    requires SameUpTo(a, b, p) && SameUpTo(b, c, q)
    ensures SameUpTo(a, c, Earlier(p, q))
  {
    var r := Earlier(p, q);
    assert a[..r.block] == a[..p.block][..r.block] == b[..p.block][..r.block] == b[..r.block];
    assert c[..r.block] == c[..q.block][..r.block] == b[..q.block][..r.block] == b[..r.block];
    if r.line > 0 {
      if p.block < q.block {
        assert b[r.block] == b[..q.block][r.block] == c[..q.block][r.block] == c[r.block];
      } else if q.block < p.block {
        assert a[r.block] == a[..p.block][r.block] == b[..p.block][r.block] == b[r.block];
      } else {
        LinesCompose(a[r.block].kind.code.body, b[r.block].kind.code.body, c[r.block].kind.code.body, p.line, q.line);
      }
    }
  }

  lemma LinesCompose(a: CodeBlocks.Body, b: CodeBlocks.Body, c: CodeBlocks.Body, m: nat, n: nat)
    requires SameLines(b, a, m) && SameLines(c, b, n)
    ensures SameLines(c, a, Min(m, n))
  {
    var k := Min(m, n);
    assert a.lines[..k] == a.lines[..m][..k] == b.lines[..m][..k] == b.lines[..k];
    assert c.lines[..k] == c.lines[..n][..k] == b.lines[..n][..k] == b.lines[..k];
  }

  /** An answer beyond the blocks there are says that all of them agree. */
  function Clamp(place: Place, count: nat): Place {
    if place.block < count then place else Place(count, 0)
  }

  function Answer(changes: seq<Entry>, revision: nat, count: nat): Place {
    match Lookup(changes, revision)
    case Some(place) => place
    case None => Place(count, 0)
  }

  /** What the answer for `revision` promises about the document then and now. */
  ghost predicate Truthful(changes: seq<Entry>, revision: nat, past: seq<Block>, now: seq<Block>) {
    SameUpTo(past, now, Clamp(Answer(changes, revision, |now|), |now|))
  }

  /** One more version whose report is right keeps every earlier answer right, whether the report is
      recorded or, at the end of the document, skipped. */
  lemma TruthCarriesOver(changes: seq<Entry>, revision: nat, past: seq<Block>, was: seq<Block>, now: seq<Block>,
                         report: Entry, after: seq<Entry>)
    requires Stacked(changes) && revision < report.at
    requires forall i :: 0 <= i < |changes| ==> changes[i].at < report.at
    requires Truthful(changes, revision, past, was)
    requires SameUpTo(was, now, report.place)
    requires after == if report.place.block >= |now| then changes else Popped(changes, report.place) + [report]
    ensures Truthful(after, revision, past, now)
  {
    hide Lookup, Popped, SameUpTo;
    var before := Clamp(Answer(changes, revision, |was|), |was|);
    SameUpToComposes(past, was, now, before, report.place);
    SameUpToBounds(was, now, report.place);
    LookupAfterRecord(changes, report, revision);
    assert Clamp(Answer(after, revision, |now|), |now|) == Earlier(before, report.place);
  }

  lemma SameUpToBounds(a: seq<Block>, b: seq<Block>, place: Place)
    requires SameUpTo(a, b, place)
    ensures place.block <= |a| && place.block <= |b| && (place.line > 0 ==> place.block < |a| && place.block < |b|)
  {
  }

  /** Read without the clamp, some answer points past the document exactly when the newest entry does. */
  lemma AnswersFitIff(changes: seq<Entry>, from: nat, to: nat, count: nat)
    requires Stacked(changes) && forall i :: 0 <= i < |changes| ==> from < changes[i].at <= to
    ensures (forall r: nat :: from <= r <= to ==> Answer(changes, r, count).block <= count)
       <==> (changes != [] ==> changes[|changes| - 1].place.block <= count)
  {
    hide Stacked;
    if changes != [] {
      var last := changes[|changes| - 1];
      NewestAnswer(changes);
      assert Answer(changes, last.at - 1, count) == last.place;
      forall r: nat | from <= r <= to
        ensures Answer(changes, r, count).block <= Max(count, last.place.block)
      {
        AnswerNotBeyondNewest(changes, r);
      }
    }
  }

  lemma NewestAnswer(changes: seq<Entry>)
    requires Stacked(changes) && changes != [] && changes[|changes| - 1].at > 0
    ensures Lookup(changes, changes[|changes| - 1].at - 1) == Some(changes[|changes| - 1].place)
  {
    BoundaryAt(changes, changes[|changes| - 1].at - 1, |changes| - 1);
  }

  lemma AnswerNotBeyondNewest(changes: seq<Entry>, revision: nat)
    requires Stacked(changes) && changes != []
    ensures Lookup(changes, revision).Some? ==>
            Lookup(changes, revision).value.block <= changes[|changes| - 1].place.block
  {
    hide NotAfter;
  }
}

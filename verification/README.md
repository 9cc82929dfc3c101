# Verified model of the diff review core

A Dafny model of the renderer-independent logic of a code and Markdown review tool, with proofs of what
that logic promises to the renderers on top of it. Run `dafny verify dfyconfig.toml` in this directory to
check everything. Paths below are relative to the repository root.

The proofs have one recurring shape: a fast, incremental or indexed form is shown to give what a simple
from-scratch form gives, for every input and every run.

## What is modelled

**Streaming Markdown** (`Bytes`, `LineIndexing`, `FenceLines`, `CodeBlocks`, `OpenFences`, `FenceExtension`,
`FenceRuns`, `EventTrees`, `Targets`, `FenceTargets`, `Settling`, `TailParses`, `Incremental`, `ChangeLog`,
`Streams`; the runs in `SampleParses`, `DroppedReports`, `SharedLines`, `SharedIds`, `StaleAnswers`). A document grows by
chunks. A line index is extended, an automaton watches for the end of an open code fence, settled blocks are not
parsed again, and a stack of changes tells a renderer which prefix it may keep. The class `IncrementalDocument`
keeps its bookkeeping right through every append, but for the cases named below; the class `MarkdownStream` answers
"what changed since revision r" and its contract says for which runs the answer is right. Closing fences follow
the code's own reading of CommonMark 0.31.2, section 4.5, which lets only spaces trail the closing run.

**Diff presentation** (`SourceDocuments`, `LineTokens`, `Hunks`, `Documents`, `Rows`, `GapRows`, `HunkRows`,
`FileRows`, `Presentation`, `Reveals`, `PatchDerivation`, `TextDiffs`). Hunks, the gaps between them and partial
reveals are flattened into rows in one or two columns, with indexes from lines back to rows. What a presentation
lists of a file is read off the rows' cells, and compared with lines 1 to n of the source.

**File tree** (`TreePaths`, `TreeListing`, `TreeBuilding`, `FileTrees`). One pass over sorted paths builds a
preorder list of directories and files with aggregated counts and stages; a second pass hides what lies in
closed directories.

**Client worker** (`ClientProtocol`, `ClientWorkers`). A worker serves one connection after another. Its
actions are recorded as a trace; the protocol says which traces are acceptable and what any acceptable trace
guarantees; the class `Worker`, driven by an arbitrary script of inputs, is proved to produce only such traces.

**Reviews and layout** (`LineAnchors`, `Reviews`, `MarkdownAnchors`, `MarkdownReviews`, `AnchorTexts`,
`NestedDashes`, `AnnotationLayouts`, `CursorWrapping`). Comments are reattached to new versions of a diff or a
Markdown document by digests of what their targets and the targets around them say, annotation boxes are laid out
between source rows, and drafts are wrapped around a cursor.

## Where the code does less than its documentation says

Each of these is proved, with the exact condition under which the promise holds and, for most, an input on which it
is broken. The fifth is one that the assumptions about the parser allow, not one shown of the program.

- A code block being streamed promises the lines of a one-shot pass. A chunk that shows a provisional closing
  line not to be one, and completes that line as well, leaves the line before it with a source range one byte
  short when it ended in CR LF (`FenceRuns.CancelledCloserLosesCR`, condition for a chunk in
  `FenceRuns.ChunkStaysExactIff`, for a run and the places it is cut at in `FenceRuns.CutsDecide`). The other way
  to lose a byte is a line that ends in two carriage returns.
- Settled blocks are meant to lie before the settled end. Lines are counted at line feeds, but a carriage return
  alone ends a block as well; giving up on a block that starts behind one goes back to the start of the counted
  line, into the block before, and part of that is parsed twice (`SharedLines.Run`; the condition is that the
  first block given up on starts on a counted line of its own: `Incremental.IncrementalDocument.Unsettle`,
  `Settling.LayoutRetreatsIff`).
- Target ids are meant to be positions in the target list. The same step cuts that list at the place it goes back
  to; a commentable node of a block that stays but does not start before it loses its target, and the first node
  parsed anew gets its id: a heading is there twice, and the two share an id (`SharedIds.Run`). A document whose ids
  were in order keeps them so if and only if every node that stays starts before that place
  (`Incremental.IncrementalDocument.Unsettle` and `Install`; in `Append` a condition on the state and the chunk
  before the call). Which blocks a document reports as changed does not depend on it.
- `append` reports the first block that may have changed. When a chunk closes a fence and the rest of it changes
  the definitions while a settled block has a bracket, that block is parsed again, but the report is about the
  fence (`DroppedReports.Run`, condition in `Incremental.IncrementalDocument.Append`, a function of the state and
  the chunk before the call).
- A report that nothing before the end of the document changed is not recorded, so an older answer can name a
  block that is gone (condition in `Streams.MarkdownStream.AnswersFitIffNewestDoes`). In `StaleAnswers.Run` the
  parser meets what is assumed of it but finds no block in a text where CommonMark finds some, so the run does not
  show that the program comes to this.
- The text differ ends a line at a lone carriage return and the captured source does not, so a patch derived from
  a text with one can have more lines than the text (`PatchDerivation.LoneCROverruns`, conditions in
  `PatchDerivation.DerivedHunksFitIff` and `TextDiffs.AllLinesReadAsSourceIff`).
- A patch derived from two texts keeps a bare carriage return at the end of a last line without a line feed,
  which the captured source drops (`SourceDocuments.BareCRDiffers`, condition in
  `SourceDocuments.DerivedTextIsLineIff`).
- The note about a missing final newline is put on the last changed line, which is the last line of the text
  only when the text ends in a change (`PatchDerivation.ContextAtTheEndIsNotMarked`, condition in
  `PatchDerivation.MarkIsRightIff`).
- The count on a gap row is the length of the longer side's gap. On the other side it is the number of lines
  not listed only if that side has all the lines the row stands for (`GapRows.GapListsAllButHidden`,
  `FileRows.PartialFileListsTheRest`); for hunks derived from two texts without lone carriage returns
  it always does (`TextDiffs.TextFileFits`).
- A Markdown comment just reattached is declared outdated by the next reconciliation with the same document
  when another block of its kind on the same first line reads the same and has the same neighbours, as the first
  two of four nested list items in `- - - - x` (`NestedDashes.FirstItemIsLost`, condition in
  `MarkdownReviews.BlockComesBackIff` and `AnchorTexts.AmbiguousIffTwin`).
- Comment ids are unique until the counter saturates (`Reviews.Review.AddComment`).

## Model

| member | source | states |
|---|---|---|
| `LineIndexing.LineIndex.constructor` | crates/diff/markdown/src/document.rs:1046-1057 | a new index is the index of the whole source it was built from |
| `LineIndexing.LineIndex.Extend` | crates/diff/markdown/src/document.rs:1059-1071 | extending the index of a prefix, however the rest was cut into chunks and even between CR and LF, gives the index of the whole source |
| `LineIndexing.StartsCharacterized` | crates/diff/markdown/src/document.rs:1053-1071 | line starts are strictly increasing and are exactly 0 and the offsets just after a line feed, one more than the line feeds |
| `LineIndexing.ContentEndsFollowStarts` | crates/diff/markdown/src/document.rs:1053-1071 | every content end lies at or after its line's start and before the next line's |
| `LineIndexing.PartitionPointCounts` | crates/diff/markdown/src/document.rs:1086-1089 | searching the starts for an offset counts the line feeds before it, plus one |
| `LineIndexing.LineIndex.LineForOffsetCounts` | crates/diff/markdown/src/document.rs:1086-1089 | the line of an offset is one more than the line feeds before it |
| `LineIndexing.LineOfStable` | crates/diff/markdown/src/document.rs:1086-1089 | appending never changes the line of an offset already covered |
| `LineIndexing.LineIndex.RangeOfIsSourceRange` | crates/diff/markdown/src/document.rs:1091-1096 | the line range the index gives for a byte range depends only on the source |
| `LineIndexing.LineIndex.LineStartOfIsLineStart` | crates/diff/markdown/src/document.rs:1073-1076 | nothing but line content lies between an offset and the start found for its line |
| `LineIndexing.LineIndex.LineCompleteIffTerminated` | crates/diff/markdown/src/document.rs:1078-1080 | a line is complete exactly when a line feed follows in the source |
| `LineIndexing.LineIndex.LineBreaksAfterCounts` | crates/diff/markdown/src/document.rs:1082-1084 | the count of breaks after an offset is the count of line feeds there |
| `FenceLines.ScanClosesIffCloser` | crates/diff/markdown/src/incremental.rs:47-81 | the one-byte automaton closes on a line exactly when the line is up to three spaces, a run of at least the opening count of the marker, and trailing spaces only, for every count and every marker but a space |
| `FenceLines.ScanSplit` | crates/diff/markdown/src/incremental.rs:47-81 | feeding a line in two pieces is feeding it whole, wherever it is cut |
| `FenceLines.ChunkedScanAgreesWithBatch` | crates/diff/markdown/src/incremental.rs:47-81 | the automaton fed in pieces agrees with the batch decision on every line without a carriage return, for every marker byte but a space or a tab |
| `FenceLines.TabMarkerDiffers` | crates/diff/markdown/src/document.rs:771-794 | with a tab as marker, which no fence has, the automaton closes where the batch scanner does not |
| `FenceLines.ClosingFence` | crates/diff/markdown/src/document.rs:771-794 | for any marker byte at all, the batch scanner accepts exactly up to three spaces, the whole run of at least the opening count of markers, spaces, and then the end of the line or a carriage return, and never a space or tab as marker |
| `FenceLines.ClosesLineIsScan` | crates/diff/markdown/src/document.rs:771-794 | for every byte a fence can be made of, the batch decision is the automaton's once it stops at the first carriage return or the end of the line |
| `FenceLines.FenceFor` | crates/diff/markdown/src/review.rs:406-418 | the fence for an excerpt is the shortest run of three or more backticks longer than every run in the excerpt |
| `FenceLines.ChosenFenceNeverCloses` | crates/diff/markdown/src/review.rs:406-418 | no line of the excerpt, nor any stretch of it, closes the fence chosen for it |
| `CodeBlocks.FencedContentRange` | crates/diff/markdown/src/document.rs:735-762 | the content range of a fenced block as a function of nothing but its source range and the source |
| `CodeBlocks.FencedCodeLine` | crates/diff/markdown/src/document.rs:712-726 | one line's record: its source range, and its text without one carriage return |
| `CodeBlocks.SetFencedLines` | crates/diff/markdown/src/document.rs:697-710 | the from-scratch body is one line for each piece between line feeds of the content, laid out in order |
| `CodeBlocks.FencedLinesTileContent` | crates/diff/markdown/src/document.rs:697-726 | those lines tile the content from its first byte to its last, and each line's text is its own source bytes without the carriage return |
| `CodeBlocks.LayTruncate` | crates/diff/markdown/src/document.rs:221-234 | truncating a body to its first lines is having laid out only those lines |
| `CodeBlocks.SplitJoins` | crates/diff/markdown/src/document.rs:697-710 | splitting content at line feeds keeps every byte, in order |
| `OpenFences.ScanStep` | crates/diff/markdown/src/incremental.rs:398-436 | after one more byte that does not close the fence, the scanner's registers are those of a scan of the whole content |
| `OpenFences.ContentRangeOfScanned` | crates/diff/markdown/src/incremental.rs:398-470 | the batch content range of the open block is what the registers say it is |
| `OpenFences.ProvisionalIffClosesLine` | crates/diff/markdown/src/incremental.rs:398-436 | without an early carriage return, automaton and batch scanner agree whether the current line is a closer |
| `OpenFences.TrackedIsScratchIffHarmless` | crates/diff/markdown/src/incremental.rs:398-470 | the kept lines of an open block equal the from-scratch lines if and only if the current line is a provisional closer or no clipped carriage return shows |
| `FenceExtension.ScanChunk` | crates/diff/markdown/src/incremental.rs:398-430 | the byte loop stops at the first closing line end of the chunk and nowhere else, storing each complete line as the batch pass would |
| `FenceExtension.FinishOpenLines` | crates/diff/markdown/src/incremental.rs:444-462 | at the end of a chunk the line before the open one gets its full source range back and the open line is laid out anew |
| `FenceExtension.SettleLines` | crates/diff/markdown/src/incremental.rs:436-462 | the lines after a chunk are the from-scratch ones when the fence closed or they were rebuilt, else the tracked ones; earlier lines are untouched |
| `FenceExtension.ExtendCode` | crates/diff/markdown/src/incremental.rs:398-470 | one chunk: the fence closes at the first closing line end whatever the cuts, its source and content ranges are the from-scratch ones, and its lines follow the clips |
| `FenceExtension.TrackedPrefixAgrees` | crates/diff/markdown/src/incremental.rs:398-470 | lines before the reported first changed line are those the block had before the chunk |
| `FenceRuns.ScannedExtends` | crates/diff/markdown/src/incremental.rs:398-430 | however many bytes arrive without a closing line end, the registers are those of a scan from the first byte |
| `FenceRuns.RunIsScratchIff` | crates/diff/markdown/src/incremental.rs:398-470 | after any run of chunks, cut anywhere, the block's lines equal `set_fenced_lines` over `fenced_content_range` if and only if the current line is a provisional closer or no clip of the run shows |
| `FenceRuns.FollowChunks` | crates/diff/markdown/src/incremental.rs:398-491 | feeding any list of chunks that do not close the fence to `extend_fence` one by one leaves the lines the run's clips describe, and the from-scratch lines exactly when the current line is a provisional closer or no clip shows, which the source and the places it is cut at decide |
| `FenceRuns.ChunkStaysExactIff` | crates/diff/markdown/src/incremental.rs:398-470 | exactly when one chunk makes correct lines incorrect: it cancels a provisional closer that had cost the line before it a carriage return and either completes the cancelled line at once or that line ended in two carriage returns |
| `FenceRuns.CutsDecide` | crates/diff/markdown/src/incremental.rs:398-470 | after any run of chunks the lines are the from-scratch ones if and only if the run lost no carriage return, and that is decided by the source and the places it is cut at: a chunk that ends in a provisional closer repairs everything, one that cancels a closer loses a carriage return or repairs everything, any other changes nothing |
| `FenceRuns.CancelledCloserLosesCR` | crates/diff/markdown/src/incremental.rs:438-462 | a concrete run in which a kept line's source range stays one byte short of the from-scratch one |
| `FenceRuns.NoCRIsExact` | crates/diff/markdown/src/incremental.rs:398-470 | content without carriage returns always has the from-scratch lines |
| `FenceRuns.ByteKeepsRanges` | crates/diff/markdown/src/incremental.rs:398-470 | streaming byte by byte never loses a source range |
| `FenceRuns.BytewiseIsExact` | crates/diff/markdown/src/incremental.rs:398-470 | byte by byte, lines that do not end in two carriage returns are the from-scratch ones |
| `EventTrees.EventTree` | crates/diff/markdown/src/document.rs:520-558 | for any events at all, balanced or not, reading the tree left to right is reading the events with missing ends supplied and surplus ends passed over, each node ending at the later of its two ranges' ends |
| `EventTrees.EveryNodeInOrder` | crates/diff/markdown/src/document.rs:520-558 | the tree holds every start and leaf event once, in the order they came |
| `EventTrees.MirrorsIffBalanced` | crates/diff/markdown/src/document.rs:520-558 | the tree reads event for event like the events if and only if they were balanced |
| `Targets.AssignTargets` | crates/diff/markdown/src/document.rs:894-974 | every commentable node gets the next free id, the target list grows by exactly those nodes, and the outline by the headings |
| `Targets.AssignItem` | crates/diff/markdown/src/document.rs:976-992 | a list item and the lists nested in it are numbered in order, nothing else of it changes |
| `Targets.AssignCode` | crates/diff/markdown/src/document.rs:894-974 | a code block takes one id and its lines the ones after it |
| `Targets.TargetsArePositions` | crates/diff/markdown/src/document.rs:894-1003 | ids are positions, each node's id leads back to its kind and source, and no two nodes share one |
| `FenceTargets.SyncCodeTargets` | crates/diff/markdown/src/incremental.rs:473-491 | the lines from the first changed one get fresh targets at the cut-back end of the list and the block's own target moves with it |
| `FenceTargets.NumberingExtended` | crates/diff/markdown/src/incremental.rs:473-491 | after syncing the last block, targets are again positions and match every node of the document |
| `FenceTargets.LayoutExtended` | crates/diff/markdown/src/incremental.rs:398-470 | replacing the last block by a longer one keeps the blocks in order |
| `Settling.NumberingCut` | crates/diff/markdown/src/incremental.rs:251-276 | counting targets and headings by source position cuts the numbered document exactly between two blocks |
| `Settling.NumberingJoin` | crates/diff/markdown/src/incremental.rs:239-249 | numbering freshly parsed blocks after the settled ones numbers the whole document |
| `Settling.LayoutRetreatsIff` | crates/diff/markdown/src/incremental.rs:251-268 | the blocks that stay settled lie before the new end if and only if that is not inside the last of them |
| `Settling.TailRetreats` | crates/diff/markdown/src/incremental.rs:251-268 | when the new end is not behind the line of the first block given up on, the blocks given up on are in order behind it |
| `Settling.LayoutAdvance` | crates/diff/markdown/src/incremental.rs:278-320 | settling one more block keeps both halves in order around the new boundary |
| `TailParses.AttachedRun` | crates/diff/markdown/src/incremental.rs:345-356 | every line of the attached run but the last is not blank, and the line before it is blank or before the gap |
| `TailParses.CountsAtCut` | crates/diff/markdown/src/incremental.rs:270-276 | in a numbered document the targets and headings counted by position are those of the blocks before the cut if and only if all their nodes start before it, otherwise fewer; and what starts before the cut comes first in the list, as the search needs |
| `TailParses.NumberingJoinIff` | crates/diff/markdown/src/incremental.rs:239-249 | numbering new blocks behind the ones that stay numbers the whole if and only if the targets kept are those of the ones that stay; when they are too few, the first new node gets an id that is taken |
| `TailParses.BackIsLineStart` | crates/diff/markdown/src/incremental.rs:251-256 | the document goes back to the start of a counted line, the block's own or one not before the end of the block before |
| `Incremental.BlankLineAt` | crates/diff/markdown/src/incremental.rs:536-547 | a line counts as blank exactly when only blanks stand before its line feed |
| `Incremental.IncrementalDocument.constructor` | crates/diff/markdown/src/incremental.rs:159-168 | an empty document satisfies every invariant |
| `Incremental.IncrementalDocument.AttachedStart` | crates/diff/markdown/src/incremental.rs:345-356 | the loop gives the start of the attached run, which is where a line starts |
| `Incremental.IncrementalDocument.SettleBoundary` | crates/diff/markdown/src/incremental.rs:322-343 | with a block after it, a block ends for good exactly when that block starts on a complete line of its own, at an offset between the two; the last block by its kind; and parsing can resume at the offset |
| `Incremental.IncrementalDocument.SyncSettledCounts` | crates/diff/markdown/src/incremental.rs:270-276 | the counts found by position are those of the settled blocks' own targets and headings if and only if every node of these starts before the settled end; otherwise there are too few |
| `Incremental.IncrementalDocument.SettleTo` | crates/diff/markdown/src/incremental.rs:294-320 | after settling, one bracket flag per settled block, definitions ended by the boundary, and the prefix the newline-terminated concatenation of their spans |
| `Incremental.IncrementalDocument.SettleTail` | crates/diff/markdown/src/incremental.rs:278-292 | blocks settle in order up to the first that has no boundary, and the settled end is the last boundary |
| `Incremental.IncrementalDocument.Unsettle` | crates/diff/markdown/src/incremental.rs:251-268 | giving up on blocks drops their flags and exactly the definitions beyond the new end and rebuilds the prefix; the blocks that stay lie before the new end if and only if the first block given up on starts on a line of its own, and the targets kept are theirs if and only if all their nodes start before it |
| `Incremental.IncrementalDocument.Install` | crates/diff/markdown/src/incremental.rs:239-249 | settled blocks stay, the tail is the parsed blocks up to targets, numbered behind the targets kept; ids match targets again if and only if the targets kept are those of the settled blocks, and when they are too few two nodes share an id |
| `Incremental.IncrementalDocument.DetectFence` | crates/diff/markdown/src/incremental.rs:358-396 | a fence is open exactly when the last block is a fenced block that reaches the end of the source below a complete opening line; it starts with the from-scratch lines |
| `Incremental.IncrementalDocument.ParseUntilStable` | crates/diff/markdown/src/incremental.rs:213-233 | the loop parses a second time if and only if the definitions of the first parse are not the known ones and some settled block has a bracket; it starts again from the first such block, and the tail is what that parse yields |
| `Incremental.IncrementalDocument.ParseTail` | crates/diff/markdown/src/incremental.rs:213-237 | the result is the first block given up on, or the first one not settled; everything before it is as it was and everything behind it the last parse, settled as far as it goes |
| `Incremental.IncrementalDocument.ExtendFence` | crates/diff/markdown/src/incremental.rs:398-470 | every invariant survives a chunk of an open fence, which closes at the first closing line end; only the last block changes, from the reported line on |
| `Incremental.IncrementalDocument.Append` | crates/diff/markdown/src/incremental.rs:192-211 | from the state and the chunk before the call: whether and from where the tail is parsed, how often, and what the blocks are then; the report is right unless a fence was open, the chunk closes it and goes on, and the definitions found behind it give up on a settled block; when the blocks that stay settled lie before the settled end; and exactly when ids that matched the targets still do, no two nodes sharing one |
| `Incremental.IncrementalDocument.Clear` | crates/diff/markdown/src/incremental.rs:186-190 | starting over leaves the empty document with a fresh index and the old parse count |
| `Incremental.IncrementalDocument.Replace` | crates/diff/markdown/src/incremental.rs:186-190 | replacing gives a valid document of exactly the new text, whose blocks and definitions are those of one parse of all of it |
| `DroppedReports.Run` | crates/diff/markdown/src/incremental.rs:192-211 | two chunks, `[foo]` with an open fence and then its end with `[foo]: /u`: block 0 becomes a link while block 1 is reported as the first to change |
| `SharedLines.Run` | crates/diff/markdown/src/incremental.rs:251-268 | three chunks in which a lone carriage return ends a fence before `[foo]`: going back to `[foo]` reaches into the fence, and the document ends up with two overlapping blocks, though ids still match targets |
| `SharedIds.Run` | crates/diff/markdown/src/incremental.rs:239-276 | two chunks in which a lone carriage return ends a heading before `[x]`: going back to `[x]` is going back to the heading, which ends up in the document twice under one id, so that no target list matches the blocks |
| `ChangeLog.PoppedKeepsEarlier` | crates/diff/markdown/src/stream.rs:163-171 | popping keeps exactly the entries for places before the new one |
| `ChangeLog.LookupAfterRecord` | crates/diff/markdown/src/stream.rs:150-171 | after recording, a query gets the earlier of its old answer and the new place |
| `ChangeLog.RecordRefines` | crates/diff/markdown/src/stream.rs:150-171 | the popped stack answers every query as a scan over all reports ever made |
| `ChangeLog.TruthCarriesOver` | crates/diff/markdown/src/stream.rs:150-171 | a report keeps every earlier answer right, whether it is recorded or skipped at the end of the document |
| `ChangeLog.AnswersFitIff` | crates/diff/markdown/src/stream.rs:150-157 | some answer names a block behind the last exactly when the newest entry of the log does |
| `Streams.MarkdownStream.Push` | crates/diff/markdown/src/stream.rs:67-81 | one push: what is reported and recorded, the new revision and the changed ranges; every answer stays right unless the push closes an open fence and gives up on settled blocks; and whether answers can point past the document |
| `Streams.MarkdownStream.Replace` | crates/diff/markdown/src/stream.rs:83-92 | replacing empties the log and resets every reader, and the document is one parse of the new text |
| `Streams.MarkdownStream.Finish` | crates/diff/markdown/src/stream.rs:94-103 | finishing is idempotent and changes no block |
| `Streams.MarkdownStream.ChangesSinceIsTrue` | crates/diff/markdown/src/stream.rs:150-157 | over any run of push, replace and finish, the blocks and lines before the answer for a revision are identical at that revision and now, and the answer is the earliest report since |
| `Streams.MarkdownStream.AnswersFitIffNewestDoes` | crates/diff/markdown/src/stream.rs:150-171 | no answer names a block behind the last if and only if the newest recorded report does not, and none does as long as blocks given up on are replaced by others |
| `StaleAnswers.Run` | crates/diff/markdown/src/stream.rs:150-171 | three pushes after which the answer for revision 1 is block 1 of a document without blocks, through a parser that meets what is assumed of it, though not CommonMark: a failure the assumptions allow |
| `Streams.MarkdownStream.Record` | crates/diff/markdown/src/stream.rs:163-171 | recording keeps every answer the stream can still be asked for right |
| `SourceDocuments.TryFromText` | crates/diff/core/src/content.rs:80-108 | a text is captured exactly when it is within both limits, else the reason is the first limit it breaks |
| `SourceDocuments.SourceDocument.Line` | crates/diff/core/src/content.rs:110-126 | line n is the n-th piece between line feeds without one carriage return, and nothing past the last |
| `SourceDocuments.DerivedTextIsLineIff` | crates/diff/core/src/models/patch_derivation.rs:44-46 | the patch derivation reads a line as the source document does if and only if the line has a line feed or does not end in a carriage return |
| `SourceDocuments.BareCRDiffers` | crates/diff/core/src/models/patch_derivation.rs:44-46 | a one-line file on which the two readings differ |
| `LineTokens.TokensCut` | crates/diff/core/src/models/patch_derivation.rs:6-10 | the differ's lines are the text in order, cut exactly after line feeds and after carriage returns that no line feed follows |
| `LineTokens.TokensCount` | crates/diff/core/src/models/patch_derivation.rs:6-10 | the differ has one line more than the source document for each lone carriage return inside the text |
| `LineTokens.TokensAreLinesIff` | crates/diff/core/src/models/patch_derivation.rs:6-10 | both see the same lines if and only if there is none |
| `Hunks.NormalizeHunk` | crates/diff/core/src/parser.rs:138-189 | the patch parser's lines carry consecutive numbers on each side; with right header counts the hunk is sound |
| `Hunks.HunkIsASpan` | crates/diff/core/src/parser.rs:138-189 | a sound hunk's lines on a side are exactly those between its boundaries, also when it has none there |
| `Hunks.GapsForFile` | crates/diff/core/src/presentation.rs:703-730 | the gaps computed are those between consecutive hunks and around them, clipped at both ends |
| `Hunks.GapsAndHunksTile` | crates/diff/core/src/presentation.rs:703-730 | for ordered hunks within the file, gaps and hunks tile lines 1 to n of a side |
| `GapRows.AppendExpandedRows` | crates/diff/core/src/presentation.rs:817-845 | rows for a stretch of a gap list its lines on each side the layout shows |
| `GapRows.AppendGapProjection` | crates/diff/core/src/presentation.rs:742-793 | one gap: its revealed start, one row for what is hidden if anything is, its revealed end |
| `GapRows.GapListsAllButHidden` | crates/diff/core/src/presentation.rs:742-793 | revealed lines and the count on the gap row add up to the gap's lines on a side if and only if every line the row stands for is a line of that side; otherwise they exceed it |
| `GapRows.FullGapHidesNothing` | crates/diff/core/src/presentation.rs:742-793 | a file shown in full hides no line of a gap |
| `HunkRows.AppendUnifiedRows` | crates/diff/core/src/presentation.rs:908-939 | one column lists every line of the hunk in order on the one side it stands for |
| `HunkRows.SplitGroups` | crates/diff/core/src/presentation.rs:1096-1115 | grouping terminates, the groups hold the hunk's lines once and in order, and each is one line or a whole run of removed lines with the whole run of added lines after it |
| `HunkRows.Align` | crates/diff/core/src/presentation.rs:1146-1155 | two stretches are put beside each other without loss, the rest of the longer one alone |
| `HunkRows.PairChangedBlock` | crates/diff/core/src/presentation.rs:1130-1155 | each removed line comes once on the left and each added line once on the right, in order, and lines the differ calls equal share a row |
| `HunkRows.AppendSplitRows` | crates/diff/core/src/presentation.rs:941-973 | two columns list exactly the non-added lines on the left and the non-removed lines on the right, each once and in order |
| `FileRows.HunkListsItsSpan` | crates/diff/core/src/presentation.rs:908-973 | a hunk lists on a side exactly the lines between its boundaries |
| `FileRows.FullFileListsEveryLine` | crates/diff/core/src/presentation.rs:362-454 | a file shown in full lists lines 1 to n of each side its layout needs, once and in order, and hides none |
| `FileRows.PartialFileListsTheRest` | crates/diff/core/src/presentation.rs:742-793 | with any reveals the listing ascends without repeats, and listed and hidden lines add up to the file if and only if no gap row stands for a line the side does not have |
| `FileRows.FileListsNoLineTwice` | crates/diff/core/src/presentation.rs:362-454 | on either side, in either layout and with any sources, a file with hunks in order lists no line twice |
| `Presentation.AppendSourceRows` | crates/diff/core/src/presentation.rs:847-877 | a file shown as its source lists each line of its own side, or gets one row saying why not |
| `Presentation.AppendPatch` | crates/diff/core/src/presentation.rs:391-431 | gaps and hunks in turn: their rows, what is listed, what is hidden, and where each hunk's rows are |
| `Presentation.AppendFile` | crates/diff/core/src/presentation.rs:374-433 | one file: header, source, placeholder, fold or patch as its mode calls for |
| `Presentation.WithProjection` | crates/diff/core/src/presentation.rs:362-467 | every file is shown once, in the order of the file tree, in turn and in its own row range, and both indexes find the last row that shows a line |
| `Presentation.IndexRows` | crates/diff/core/src/presentation.rs:435-454 | an index finds for each line the last row a scan would, and nothing else |
| `Presentation.LookUpFindsTheOnlyRow` | crates/diff/core/src/presentation.rs:574-602 | with hunks in order a lookup gives a row if and only if that row shows the line |
| `Presentation.EveryLineIsFound` | crates/diff/core/src/presentation.rs:599-602 | every line of a file shown in full is found, on each side its layout needs |
| `Presentation.AnchorFindsItsLine` | crates/diff/core/src/presentation.rs:574-578 | the anchor of a listed patch line leads back to the row whose cell is that very line |
| `Reveals.StepsLeave` | crates/diff/core/src/session.rs:541-560 | k single reveals leave all but k steps of an edge gap hidden and all but 2k of any other, never less than nothing, saturation included |
| `Reveals.ReviewSession.Rebuild` | crates/diff/core/src/session.rs:905-907 | rebuilding presents the document under the current projection |
| `Reveals.ReviewSession.RevealSelectedGap` | crates/diff/core/src/session.rs:527-563 | which gap or folded file the selection means, how its expansion changes and nothing else, and that the presentation follows; in either layout no line of the gap that was shown is hidden again, and revealing all leaves none hidden |
| `PatchDerivation.NumberChanges` | crates/diff/core/src/models/patch_derivation.rs:7-26 | each line of the script gets the next number of every side it is on |
| `PatchDerivation.GroupRanges` | crates/diff/core/src/models/patch_derivation.rs:48-63 | the ranges cut out every changed line with three lines of context, apart from each other |
| `PatchDerivation.SliceIsSound` | crates/diff/core/src/models/patch_derivation.rs:66-80 | a hunk cut out of the script is sound and its boundaries are where the script puts them |
| `PatchDerivation.DerivePatch` | crates/diff/core/src/models/patch_derivation.rs:6-42 | for any two texts the hunks are the grouped slices of the script with the last one marked for sides without a final newline |
| `PatchDerivation.DerivedPatchFits` | crates/diff/core/src/models/patch_derivation.rs:6-42 | when neither text has a lone carriage return the derived hunks fit both, and every gap holds the same lines on both sides |
| `PatchDerivation.DerivedHunksFitIff` | crates/diff/core/src/models/patch_derivation.rs:6-42 | for any text the derived hunks are within its lines if and only if it has no more lone carriage returns than script lines behind the last hunk |
| `PatchDerivation.LoneCROverruns` | crates/diff/core/src/models/patch_derivation.rs:6-42 | a file of one line whose derived hunk adds two |
| `PatchDerivation.ScriptLineIsSourceLine` | crates/diff/core/src/models/patch_derivation.rs:7-26 | in a text without lone carriage returns a script line on a side is the source line its number says |
| `PatchDerivation.MarkIsRightIff` | crates/diff/core/src/models/patch_derivation.rs:28-40 | the missing-newline mark is on the text's last line if and only if the text ends in a changed line |
| `PatchDerivation.ContextAtTheEndIsNotMarked` | crates/diff/core/src/models/patch_derivation.rs:82-86 | two texts whose last, common line should be marked and is not |
| `PatchDerivation.MarkLastIncomplete` | crates/diff/core/src/models/patch_derivation.rs:82-86 | the mark goes to the last line of a kind and nowhere else |
| `TextDiffs.FromTexts` | crates/diff/core/src/models/file_diff.rs:94-122 | a file built from any two texts: status, captured sides, hunks that fit when neither text has a lone carriage return, and otherwise exactly when they are within the lines of each |
| `TextDiffs.TextFileFits` | crates/diff/core/src/models/file_diff.rs:94-122 | such a file meets every condition the presentation theorems ask for, in any layout its status allows |
| `TextDiffs.TextFileShowsEveryLine` | crates/diff/core/src/presentation.rs:362-454 | from two texts to rows: in full, every line once and in order; with any reveals, an ascending listing and gap rows for exactly the rest |
| `TextDiffs.HunkLineReadsAsSourceIff` | crates/diff/core/src/models/patch_derivation.rs:6-46 | in a text without lone carriage returns a derived line reads as its source does unless it ends a text without final newline in a carriage return |
| `TextDiffs.AllLinesReadAsSourceIff` | crates/diff/core/src/models/patch_derivation.rs:6-46 | for any text, every derived line reads as the source line of its number if and only if a line feed follows every carriage return |
| `Documents.FileIndex` | crates/diff/core/src/models/diff_document.rs:37-39 | the first file with a path, or none when there is none |
| `TreePaths.PathsCompare` | crates/diff/core/src/file_tree.rs:36-42 | the tree order decides between any two different paths one way only |
| `TreePaths.PathsChain` | crates/diff/core/src/file_tree.rs:36-42 | the tree order is transitive |
| `TreePaths.DirectoryIsTogether` | crates/diff/core/src/file_tree.rs:36-42 | what lies under a directory comes together in tree order |
| `TreeListing.StableOrder` | crates/diff/core/src/file_tree.rs:28-34 | the sort gives each index once, in tree order, equal paths in their old order |
| `TreeListing.TreeOrder` | crates/diff/core/src/file_tree.rs:28-34 | the files' display order is an arrangement of them in tree order |
| `TreeListing.ListRepository` | crates/diff/core/src/file_tree.rs:260-277 | a repository's paths, each with the last undeleted file there, then exactly the changed files elsewhere |
| `TreeListing.Listed` | crates/diff/core/src/file_tree.rs:260-277 | the listing is sorted and holds every path and file it should, no file twice |
| `TreeBuilding.BumpAncestors` | crates/diff/core/src/file_tree.rs:85-92 | a changed file is counted into each open directory once and into nothing else |
| `TreeBuilding.OpenDirectories` | crates/diff/core/src/file_tree.rs:70-84 | the directories of the next path that are not open yet are pushed, each new, and the open chain is its whole path |
| `TreeBuilding.MergingIsCommon` | crates/diff/core/src/file_tree.rs:250-252 | merging stages one by one gives the common stage, or partially staged |
| `TreeBuilding.AddItem` | crates/diff/core/src/file_tree.rs:59-105 | one more sorted path keeps a preorder list with one entry for each distinct ancestor directory, its counts the sum and its stage the common stage of the changed files under it |
| `TreeBuilding.PreorderPush` | crates/diff/core/src/file_tree.rs:59-105 | a pushed entry keeps the list in preorder |
| `FileTrees.FileTree.constructor` | crates/diff/core/src/file_tree.rs:46-50 | a new tree is built from the document with nothing toggled or selected |
| `FileTrees.FileTree.SetRepository` | crates/diff/core/src/file_tree.rs:52-57 | the repository's paths are kept sorted and the tree rebuilt over them |
| `FileTrees.FileTree.Rebuild` | crates/diff/core/src/file_tree.rs:59-111 | rebuilding describes the new listing, and keeps exactly the toggles and the selection that are still there |
| `FileTrees.Visible` | crates/diff/core/src/file_tree.rs:233-247 | one pass with one depth variable shows exactly the entries whose every directory is expanded, in order |
| `FileTrees.FileTree.Refresh` | crates/diff/core/src/file_tree.rs:233-247 | what is visible is what is shown under the current toggles |
| `FileTrees.FileTree.ToggleState` | crates/diff/core/src/file_tree.rs:215-227 | a directory ends up as asked, no other changes, and the answer says whether it was news |
| `FileTrees.FileTree.SetExpanded` | crates/diff/core/src/file_tree.rs:149-153 | opening or closing one directory refreshes what is visible |
| `FileTrees.FileTree.Select` | crates/diff/core/src/file_tree.rs:129-133 | selecting a position selects the path visible there |
| `FileTrees.FileTree.RevealPath` | crates/diff/core/src/file_tree.rs:165-177 | a listed path is selected and visible afterwards, and only directories above it were touched |
| `FileTrees.FileTree.FollowFile` | crates/diff/core/src/file_tree.rs:179-190 | the selection becomes the deepest visible path among the file and its ancestors |
| `ClientProtocol.AnsweredOnce` | crates/diff/client/src/client.rs:274-474 | in every accepted trace no reply is answered twice |
| `ClientProtocol.SentOnce` | crates/diff/client/src/client.rs:394-432 | no command or lookup is sent twice, across connections |
| `ClientProtocol.IdsNeverReused` | crates/diff/client/src/client.rs:414-432 | a lookup id is never used again, on any connection |
| `ClientProtocol.NothingSentBeforeItBegins` | crates/diff/client/src/client.rs:243-266 | nothing is sent before the server has begun the connection it is sent on |
| `ClientProtocol.OneRequestAtATime` | crates/diff/client/src/client.rs:303-364 | between two sent commands the first was answered |
| `ClientProtocol.AnswersReachTheirLookup` | crates/diff/client/src/client.rs:366-392 | an answer reaches only the lookup sent with that id on the current connection |
| `ClientProtocol.EveryReplyAnsweredOnce` | crates/diff/client/src/client.rs:274-301 | when nothing is owed, each reply taken was answered exactly once |
| `ClientProtocol.MutationsAreNotMistakenForFailures` | crates/diff/client/src/client.rs:434-445 | a delivered command is answered by its result or on abandonment, and then a mutating one is told the outcome is unknown |
| `ClientProtocol.NothingStartsOnceShut` | crates/diff/client/src/client.rs:274-301 | once the worker is closed nothing is taken, sent, begun or connected any more |
| `ClientProtocol.ReconnectsOnlyWhenItMay` | crates/diff/client/src/client.rs:274-301 | a second connection follows an end that was not final, a server once met, and the answering of every reply taken so far |
| `ClientWorkers.Worker.constructor` | crates/diff/client/src/client.rs:225-237 | a new worker holds nothing |
| `ClientWorkers.Worker.Check` | crates/diff/client/src/client.rs:243-266 | the handshake's verdict on every kind of event |
| `ClientWorkers.Worker.HandleEvent` | crates/diff/client/src/client.rs:366-392 | for every event the result, the answers sent, and the new fields |
| `ClientWorkers.Worker.Request` | crates/diff/client/src/client.rs:394-412 | a command is refused before initialization, pending once it went out, and answered at once when it did not |
| `ClientWorkers.Worker.Lookup` | crates/diff/client/src/client.rs:414-432 | a lookup is refused before initialization and otherwise takes the next id, spent even when the send fails |
| `ClientWorkers.Worker.AbandonRequest` | crates/diff/client/src/client.rs:434-445 | everything a lost connection owed is answered |
| `ClientWorkers.Worker.HandleCommand` | crates/diff/client/src/client.rs:338-350 | a command, a close, or the end of the command channel |
| `ClientWorkers.Worker.Serve` | crates/diff/client/src/client.rs:338-361 | one input of a connection keeps the trace accepted and every reply accounted for |
| `ClientWorkers.Worker.Connection` | crates/diff/client/src/client.rs:303-364 | one connection from handshake to end keeps the trace accepted; a close ends it without error |
| `ClientWorkers.Worker.SeeOff` | crates/diff/client/src/client.rs:277-289 | after a connection everything owed is answered, and another is made exactly if the worker is not closed, was once initialized, may retry, and the end was not final |
| `ClientWorkers.Worker.Reconnect` | crates/diff/client/src/client.rs:447-474 | between connections every request and lookup is refused and a close acknowledged; the worker is closed exactly when it gives up |
| `ClientWorkers.Worker.Run` | crates/diff/client/src/client.rs:274-301 | over any script of inputs, failures and reconnects the trace is accepted; when the worker ends every reply it took has been answered, and it made a second connection only if its transport and policy allow |
| `LineAnchors.ForLine` | crates/diff/core/src/anchor.rs:24-40 | an anchor exists only for a line with a number on the side, and records that line |
| `Reviews.Gather` | crates/diff/core/src/review.rs:149-168 | one pass gathers for each wanted content the anchors of every line with it, on every side it stands on, in order |
| `Reviews.Reattach` | crates/diff/core/src/review.rs:201-211 | searching one bucket gives the anchor itself if it is there, else the first nearest line of the same path, side and content |
| `Reviews.BucketSearchIsFullSearch` | crates/diff/core/src/review.rs:146-188 | searching the bucket finds what searching every line of the document would |
| `Reviews.FindsOne` | crates/diff/core/src/review.rs:201-211 | the plain search has one answer |
| `Reviews.Review.constructor` | crates/diff/core/src/review.rs:38-45 | a new review is empty |
| `Reviews.Review.AddComment` | crates/diff/core/src/review.rs:47-76 | a comment is appended under the next id, which no other comment has until ids saturate |
| `Reviews.Review.EditComment` | crates/diff/core/src/review.rs:78-85 | the first comment with the id gets the new body and nothing else changes |
| `Reviews.Review.RemoveComment` | crates/diff/core/src/review.rs:87-91 | the first comment with the id is taken out and returned |
| `Reviews.Review.Reconcile` | crates/diff/core/src/review.rs:146-188 | every comment of the target's commit gets the naive search's anchor or is outdated, all others and all ids, bodies and the order stay, and the answer is whether anything changed |
| `Reviews.SecondReconcileChangesNothing` | crates/diff/core/src/review.rs:146-188 | reconciling again changes nothing |
| `AnnotationLayouts.NewLayout` | crates/diff/ratatui/src/annotation_layout.rs:18-33 | the boxes in the range are placed in order, each where its lines begin |
| `AnnotationLayouts.AnnotationLayout.LengthIsRight` | crates/diff/ratatui/src/annotation_layout.rs:35-36 | the length is that of the flat list of source rows and box lines |
| `AnnotationLayouts.AnnotationLayout.Row` | crates/diff/ratatui/src/annotation_layout.rs:65-80 | row i is element i of the flat list, and there is none past its end |
| `AnnotationLayouts.AnnotationLayout.VisualOffsetForSource` | crates/diff/ratatui/src/annotation_layout.rs:42-52 | the offset of a source row of the range is where the flat list has it, and there is one exactly for those |
| `CursorWrapping.WrapWithCursor` | crates/diff/ratatui/src/annotation.rs:124-157 | lines break at line feeds and where the next character has no room and nowhere else, none is too wide when each character fits, and the cursor is behind exactly the text before its offset |
| `CursorWrapping.WrappingLosesNothing` | crates/diff/ratatui/src/annotation.rs:124-157 | the wrapped lines one after another are the text without its line feeds |
| `MarkdownAnchors.HeadingPath` | crates/diff/markdown/src/anchor.rs:261-273 | the stack-built path is the titles of the headings up to the line that no later one of the same or a higher rank has closed |
| `MarkdownAnchors.PathDescends` | crates/diff/markdown/src/review.rs:280-292 | along a path each heading is of a lower rank than the one before |
| `MarkdownAnchors.NearestTarget` | crates/diff/markdown/src/anchor.rs:196-211 | a target is returned exactly when it alone is closest |
| `MarkdownAnchors.NearestLineIndex` | crates/diff/markdown/src/anchor.rs:213-231 | a line is returned exactly when it alone of those that read the same is closest |
| `MarkdownAnchors.Anchored.PartitionPoint` | crates/diff/markdown/src/anchor.rs:60-66 | the binary search finds the first target at or after a line |
| `MarkdownAnchors.Anchored.ExactTarget` | crates/diff/markdown/src/anchor.rs:60-81 | with targets sorted by first line, the search on one line finds what scanning all targets would, and finds nothing only when no target has the anchor; `AnchorTexts.AnchorsAreSearchable` shows its condition to hold of the anchors a document makes |
| `MarkdownAnchors.ResolveBlock` | crates/diff/markdown/src/anchor.rs:161-194 | the first of the three tiers with a unique nearest candidate decides, and what is found is that candidate |
| `MarkdownAnchors.UnmovedBlockResolvesIff` | crates/diff/markdown/src/anchor.rs:161-211 | an unmoved block is found by its context if and only if no other target of its kind on its line has the same context |
| `MarkdownReviews.ResolveAnchor` | crates/diff/markdown/src/anchor.rs:111-129 | an anchor resolves to its block, or to the line at its old index if that reads the same, else to the unique nearest line that does |
| `MarkdownReviews.AnchorFoundOnce` | crates/diff/markdown/src/anchor.rs:111-129 | an anchor resolves in one way |
| `MarkdownReviews.MarkdownReview.AddComment` | crates/diff/markdown/src/review.rs:63-74 | a comment is appended under the next id, which no other comment has until ids saturate |
| `MarkdownReviews.MarkdownReview.Clear` | crates/diff/markdown/src/review.rs:162-164 | clearing keeps the counter, so ids are not given out again |
| `MarkdownReviews.MarkdownReview.Reconcile` | crates/diff/markdown/src/review.rs:167-193 | every comment goes to the target its anchor resolves to or stays and is outdated, ids and bodies stay, and the answer is whether any comment changed |
| `MarkdownReviews.BlockComesBackIff` | crates/diff/markdown/src/anchor.rs:131-211 | a block's own anchor resolves to it if and only if no other target of its kind on its first line has its context, else to nothing |
| `MarkdownReviews.AnchorsComeBack` | crates/diff/markdown/src/anchor.rs:92-211 | without such ambiguity every anchor the document makes resolves to its own target, code lines included |
| `MarkdownReviews.SecondReconcileChangesNothing` | crates/diff/markdown/src/review.rs:167-193 | without such ambiguity reconciling again changes nothing |
| `MarkdownReviews.AmbiguousBlockIsLost` | crates/diff/markdown/src/review.rs:167-193 | and with it, a comment just attached to such a block is outdated by the next reconciliation |
| `AnchorTexts.AssigningBuilds` | crates/diff/markdown/src/document.rs:894-992 | assigning targets to freshly parsed blocks gives a document whose code blocks and lines are found again by their targets |
| `AnchorTexts.AnchorsAreWellMade` | crates/diff/markdown/src/anchor.rs:92-159 | the anchors such a document makes, from the texts found by walking its blocks, say what the document says of their targets, code lines included |
| `AnchorTexts.AnchorsAreSearchable` | crates/diff/markdown/src/anchor.rs:60-108 | in any document as the crate builds it, with targets sorted by first line, every anchor records the kind and lines of its target, or of the code block in which its line is found again, which is what the search for an exact target relies on |
| `AnchorTexts.ContextsCover` | crates/diff/markdown/src/anchor.rs:131-159 | with a digest that tells its parts apart, targets on one line with the same context have the same content and the same headings |
| `AnchorTexts.AmbiguousIffTwin` | crates/diff/markdown/src/anchor.rs:233-259 | a target is ambiguous if and only if another one of its kind starts on its line with the same text and the same neighbours |
| `NestedDashes.FirstItemHasAnchor` | crates/diff/markdown/src/anchor.rs:92-107 | in the document of four dashes and an `x` on one line the first list item, which has no text of its own, can be commented on |
| `NestedDashes.FirstItemIsLost` | crates/diff/markdown/src/review.rs:167-193 | in the document of four dashes and an `x` on one line a comment on the first list item is outdated by the next reconciliation |

## Left out

What the contracts take for granted:

- Settling.ParserContract: pulldown-cmark and the conversion of its events to blocks are an arbitrary function.
  Started where the document resumes parsing (where a line starts, also after a lone carriage return, or where only
  blanks are left of one), it returns non-empty blocks in order at or after that offset, which may share a line;
  their commentable nodes start on the block's first line or later, none on an earlier line than the one before it,
  and, but for lines of a code block that runs to the end of the source, before its end; fenced blocks are built with the crate's own functions, a closed one ends
  where a line does, and an unclosed one was not already closed by a carriage return. CommonMark itself is not part
  of this model.
- HunkRows.DifferContract: `similar`'s operations on a changed block are any list that tiles both inputs in order.
- PatchDerivation.IsScript: `similar`'s line changes are any script whose sides are the two texts, cut after LF,
  CR LF and a lone CR.
- FileRows.Fits: the presentation theorems about every line of a side ask that the sources the layout needs are
  captured and that the hunks are numbered right, in order and within the file there.
- LineAnchors.Digests: fingerprints are arbitrary functions of what they are taken over;
  AnchorTexts.Injective adds, where two contexts are compared, that they tell different parts apart.
- AnchorTexts.Normalized: white space is the ASCII one.
- ClientWorkers.HandedOnce: a reply channel is handed to the worker once.

What the model does not say:

- Incremental.IncrementalDocument.Append: does not say that the whole streamed document equals a one-shot
  parse, because that needs laws of CommonMark parsing this code does not contain.
- Streams.MarkdownStream.Push: speaks of the blocks only while every report was right, which the state before
  each push decides.
- Incremental.IncrementalDocument.SyncSettledCounts: in a document whose ids are no longer in order, the counts are
  those of a scan from the end; that a binary search gives the same is shown only where the ids are in order.
- ClientWorkers.Worker.Run: waiting times, back-off delays and idle timing are not modelled; an input the
  worker is not waiting for is passed over, and a script that ends early leaves the run unfinished.
- CursorWrapping.WrapWithCursor: a character's width is any natural, and sums do not saturate.
- Bytes are numbers below 256 and text is any sequence of them: UTF-8 validity and character boundaries are not
  modelled.
- Integers are unbounded, except where saturation matters (reveals, comment ids); wrap-around of revisions and
  lookup ids is not modelled.
- Blocks, code blocks and rows are values: sharing through `Arc` and in-place change inside the block list are
  not modelled.
- Syntax highlighting of an open block, which can lower the reported first changed line further.
- Labels, display text, inline structure and styles of a document, and parse statistics other than the number of
  parses.
- Row identities, viewport anchors, retained expansions, truncation of long cell texts, and restoring the
  selection after a rebuild.
- A reference file open in the session, the comment draft and its cursor, and session navigation.
- Moving the selection in the file tree, stage actions and the paths under a directory.
- The published client state and its subscribers.
- Editing and removing Markdown comments, capturing their display context and formatting a review; those of a
  diff review are modelled, formatting is not.
- The order in which a hash map is walked is arbitrary; the library's stable sort is modelled by insertion.
- Sockets, git, the file system, timers, widgets, key maps and command tables.

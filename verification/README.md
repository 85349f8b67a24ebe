# Model and proofs of the document pipeline

A Dafny 4.11 model of five parts of the server that indexes a folder of markdown documents, with
proofs of what each promises.

1. **Headings and chunks** (`src/heading.rs`, `src/chunk.rs`). `Lines`, `Headings`, `Ancestry`,
   `HeadingText` and `HeadingKeys` model the line index, the stack pass that builds the heading
   tree, common ancestors and section merging, and heading normalisation. `Chunks` says on values
   how a body is cut into sections, sections into pieces, and pieces grouped; `Chunker` is the
   loop itself over chunks that are appended to in place. `Grouping`, `Sectioning`, `ChunkLaws`,
   `Breadcrumbs`, `ChunkSizes`, `ChunkTails`, `Accumulation`, `Emission` and
   `EmissionLaws` hold the laws.
2. **Contradiction runs** (`src/contradictions.rs`, with the tables of `src/state.rs`).
   `Contradictions` says one run on values; `ContradictionRun` is the run against tables updated
   in place. `RunReport` says what a run gets to, writes and reports; `RunLaws` holds for any
   single run, `RunInvariant` for any history of runs, additions, edits and removals,
   `Convergence` and `Quiescence` for runs over an unchanged corpus, and `RunLimits` shows where
   those laws stop. `Neighbours` says what the neighbour list is.
3. **Concurrent embedding** (`src/embed.rs`). `Scheduling` is the protocol as a state machine in
   which any batch in flight may finish next; `Embedding` holds the loop, the batching and the
   index sort.
4. **Frontmatter projection** (`src/document_fields.rs`). `Frontmatter` and `Projection` say which
   rows a document has without the row cap, `ProjectionLaws` and `Elements` relate them to the
   nested document, `RowValues` says what rows spell, `Flattening` is the capped walk,
   `StoredFilters` the filters over its rows.
5. **Judge replies** (`src/judge.rs`). `JsonScan` is the object scanner and the parsing loop,
   `JsonText` a printer of JSON and the round trip, `Fences` the prompt fence.

`Options`, `Text` and `Ordering` are shared helpers. `dafny verify dfyconfig.toml` checks the
project.

What the code calls but does not define is a parameter, with what is assumed of it stated as a
predicate: the markdown parser (a list of headings with lines in range), the text splitter
(`SplitterOk`, or only `SplitterInRange` where that is enough), case folding (`FoldOk`), float
printing (`ShowOk`), the neighbour store, the judge, file reads and cancellation (`Env`), the
embedding service (`Faithful`), and JSON decoding (the function `read`). What is assumed can be met:
`FoldIsPossible`, `SplitterIsPossible`, `ShowIsPossible` and `ServiceIsPossible` say by what, and
`RunLimits.OneSidedIsGood` does so for the good runs of `Convergence` and `Quiescence`.

Three claims of the source's comments do not hold as written, and the model follows the code. A
stray `{` in leading prose does hide a verdict when it is never closed (`JsonScan.ParseIs` says
exactly when a reply parses, `JsonScan.UnclosedBraceHides` is an input). Two distinct numbers can
share a spelling, at exactly 2^64 (`Frontmatter.SameSpelling`). A heading's joiner-free spelling can
get another key although its format characters are a small minority (`HeadingKeys.MinorityMatters`;
`HeadingKeys.PlainSpellingSameKey` says exactly when it gets the same one).

## Model

| member | source | states |
|---|---|---|
| `Lines.IndexIsExact` | src/heading.rs:157-173 | the index holds byte 0 and the byte after every newline, and nothing else, in ascending order |
| `Lines.LineOfByteRange` | src/heading.rs:179-210 | lookup and slicing agree, both ways: a byte is on a line of `first..=last` exactly when it lies in their byte range or is the newline ending it |
| `Lines.LineOfMonotone` | src/heading.rs:181-183 | a later byte is on the same or a later line, and never past the last line |
| `Lines.LineOfCounts` | src/heading.rs:181-183 | a byte's line is one more than the number of newlines before it |
| `Lines.RangeInText` | src/heading.rs:185-210 | slicing is total: any request, inverted or out of range, gives a range inside the text |
| `Lines.SlicesJoin` | src/heading.rs:194-210 | two adjoining runs of lines joined by one newline are one run |
| `Lines.WholeSlice` | src/heading.rs:194-210 | all lines together are the whole text |
| `Headings.KeepHeadings` | src/heading.rs:285-293 | the loop over the reported headings builds the kept list of the two rows below |
| `Headings.KeptLead` | src/heading.rs:285-293 | a heading is kept exactly when it shows something and stands below every earlier one that does |
| `Headings.KeptIsFirstOnLine` | src/heading.rs:285-293 | for headings reported in line order: kept exactly when it is the first on its line that shows something |
| `Headings.KeptAscend` | src/heading.rs:285-292 | whatever the parser reports, kept headings stand on strictly increasing lines and are never empty |
| `Headings.NearestLowerIsNearest` | src/heading.rs:313-341 | the recorded parent is the nearest earlier heading of strictly lower level, or there is none |
| `Headings.NextIsFirst` | src/heading.rs:322-331 | the heading that ends a subtree is the first later one of the same or a lower level |
| `Headings.CloseSubtrees` | src/heading.rs:322-331 | popping the stack ends the subtree of exactly the open headings at the new level or deeper and leaves exactly the shallower ones |
| `Headings.AddHeading` | src/heading.rs:314-342 | one round of the pass keeps every record equal to the one defined from the heading list alone, and the stack equal to the open headings |
| `Headings.BuildTree` | src/heading.rs:309-345 | the in-place stack pass builds the tree whose parents, section ends and subtree ends are defined directly from the list |
| `Headings.TreeIsWellFormed` | src/heading.rs:309-345 | that tree has ascending lines, parents before children and the defined ends |
| `Headings.Parse` | src/heading.rs:259-345 | the whole parse after the markdown parser: filter, stack pass, well-formed tree |
| `Ancestry.SubtreeHoldsDescendants` | src/heading.rs:309-342 | heading j starts inside the line range of i's subtree exactly when i is j or an ancestor of j |
| `Ancestry.SubtreesNestOrPart` | src/heading.rs:309-342 | two subtree line ranges are nested or disjoint |
| `Ancestry.FindCommonAncestor` | src/heading.rs:384-394 | the two-pointer walk ends and returns the common ancestor of the specification |
| `Ancestry.CommonAncestorIsDeepest` | src/heading.rs:380-394 | the ancestors-or-self of the result are exactly the headings that are ancestor-or-self of both |
| `Ancestry.PathListsAncestors` | src/heading.rs:367-378 | the path lists exactly the ancestors-or-self, from the top down |
| `Ancestry.Path` | src/heading.rs:367-378 | the walk up followed by the reversal gives the texts of that path |
| `Ancestry.MergeIsJoin` | src/heading.rs:588-597 | merge is the least upper bound of two sections under containment |
| `Ancestry.MergeLaws` | src/heading.rs:588-597 | merge is commutative, associative and idempotent |
| `Ancestry.CoversIsWithin` | src/heading.rs:615-624 | one section contains another exactly when its line range covers the other's, for sections that are present |
| `Ancestry.MergeIsNarrowest` | src/heading.rs:588-624 | the merged section's line range covers both, and any section covering both covers it |
| `HeadingText.CleanHeadingText` | src/heading.rs:480-513 | the loop with its two counters and labelled break computes: collapse words, cut at the first cap reached, drop an invisible tail |
| `HeadingText.PushWord` | src/heading.rs:496-509 | the inner loop takes the longest part of a word both caps allow and notes whether any of it counts |
| `HeadingText.CutLengthIs` | src/heading.rs:474-477 | the cut is the longest prefix within both caps |
| `HeadingText.CleanShape` | src/heading.rs:463-479 | cleaned text is words joined by single spaces, each with a visible character and no layout character |
| `HeadingKeys.CleanIsIdempotent` | src/heading.rs:479-513 | cleaning cleaned text changes nothing |
| `HeadingKeys.CleanHasNoControl` | src/heading.rs:465-472 | cleaned text holds no control and no layout-only character |
| `HeadingKeys.StoredMatchingText` | src/heading.rs:405-419 | the stored text keeps all matching characters up to the cap exactly when the raw cap is slack |
| `HeadingKeys.FewRenderingCharsAreSlack` | src/heading.rs:405-419 | with at most 200 rendering-format characters the raw cap is slack |
| `HeadingKeys.CollapseSqueezes` | src/heading.rs:480-513 | what the collapsed text keeps for matching is the text without ignored characters, every run of separators made one space and none left at the ends |
| `HeadingKeys.NormalizeIsReference` | src/heading.rs:515-555 | the two-stage capped normaliser equals drop ignored, squeeze, fold, take 200, trim exactly when the raw cap is slack or what it stored folds to as much text |
| `HeadingKeys.PlainSpellingSameKey` | src/heading.rs:518-537 | a heading and its spelling without the ignored characters get the same key exactly under that condition |
| `HeadingKeys.MinorityMatters` | src/heading.rs:526-536 | a heading with 1199 visible and 201 format characters whose joiner-free spelling gets another key |
| `HeadingKeys.SameFoldedTextSameKey` | src/heading.rs:515-555 | two spellings whose squeezed matching texts fold alike, each with at most 200 format characters, get the same key |
| `HeadingKeys.PrefixKeyInjective` | src/heading.rs:557-570 | joined keys are equal exactly when the lists of normalised segments are equal |
| `Chunker.SplitSections` | src/chunk.rs:155-177 | the loop yields the non-blank preamble, if any, and one section per heading |
| `Sectioning.SectionsChain` | src/chunk.rs:151-177 | sections follow one another line by line to the end of the body |
| `Sectioning.SectionsTileBody` | src/chunk.rs:151-177 | section texts joined by newlines rebuild the body, less a blank preamble |
| `Sectioning.PieceInSection` | src/chunk.rs:310-332 | every fragment's line range lies in its section, whatever length the splitter reports |
| `Sectioning.FragmentsInOrder` | src/chunk.rs:310-320 | a fragment ends no later than the next one starts |
| `Chunker.RawChunk.Append` | src/chunk.rs:194-213 | appending in place: text joined by a blank line, breadcrumb and section narrowed to what both have in common |
| `Chunker.AddFragment` | src/chunk.rs:334-362 | one round over fragments: merge forward, keep waiting, or push, as the value-level step says |
| `Chunker.MergeTail` | src/chunk.rs:364-389 | the trailing fragment joins the last chunk or stands alone, as the value-level step says |
| `Chunker.AddSection` | src/chunk.rs:280-428 | one round over sections, oversized or accumulated |
| `Chunker.GroupSections` | src/chunk.rs:275-432 | the two-accumulator loop over objects builds exactly the groups of the value-level run |
| `Chunker.Finish` | src/chunk.rs:434-471 | assembling one chunk: breadcrumb, description, body, attribution and offsets |
| `Chunker.ChunkMarkdown` | src/chunk.rs:241-474 | the whole function: every chunk is the emitted form of its group |
| `Chunker.GroupsJoin` | src/chunk.rs:195-213 | merging merged pieces in any bracketing gives the same text, breadcrumb and section |
| `Grouping.PiecesAreConserved` | src/chunk.rs:275-432 | in both modes, taking all chunks apart gives exactly the section texts, or fragments of oversized ones, none lost, repeated or moved |
| `ChunkLaws.ChunksStayInOneSection` | src/chunk.rs:268-432 | with sections isolated all pieces of a chunk are of one section, its attribution, never the root |
| `ChunkLaws.AttributionsInOrder` | src/chunk.rs:268-432 | with sections isolated attributions appear in document order |
| `ChunkLaws.AttributionIsNarrowest` | src/chunk.rs:81-83 | a section contains the one a chunk is attributed to exactly when it contains every piece of the chunk |
| `ChunkLaws.EverySectionOwnsAChunk` | src/chunk.rs:268-432 | with sections isolated every kept section, a bare heading line included, owns a chunk |
| `ChunkLaws.ChunkLines` | src/chunk.rs:310-320 | 1 <= section start <= first line <= last line <= section end <= line count, and a chunk ends no later than the next starts, for any merges |
| `Breadcrumbs.OpeningPieceLeads` | src/chunk.rs:278-325 | exactly the first piece of a section starts with its heading line and carries that heading's parent as breadcrumb; every later piece carries the heading itself |
| `Breadcrumbs.BreadcrumbIsDeepest` | src/chunk.rs:54-57 | a heading is the chunk's breadcrumb or above it exactly when it is so for the breadcrumb of every piece |
| `Breadcrumbs.BreadcrumbNeverRestates` | src/chunk.rs:281-288 | a breadcrumb is none or a strict ancestor of every heading whose line opens a piece, and an ancestor-or-self of every piece's heading |
| `Breadcrumbs.BreadcrumbShows` | src/chunk.rs:51-57 | a heading is in a chunk's breadcrumb exactly when every piece stands under it, strictly if it opens with its heading line |
| `Breadcrumbs.ContinuationShowsHeading` | src/chunk.rs:51-57 | with sections isolated, a chunk none of whose pieces opens its section has that section's heading as breadcrumb |
| `Breadcrumbs.NoBreadcrumbWithoutHeading` | src/chunk.rs:210-212 | a chunk attributed to the root or the preamble has no breadcrumb |
| `ChunkSizes.FragStepSizes` | src/chunk.rs:334-362 | the waiting fragment group is always below the minimum, so the branch for a substantial one is never taken, and finished groups reach the minimum |
| `ChunkTails.OversizedSection` | src/chunk.rs:290-391 | an oversized section's fragments are cut into the shortest runs that reach the minimum size; the rest joins the chunk before exactly when it fits and may |
| `ChunkTails.SmallFragmentsStandApart` | src/chunk.rs:365-389 | a chunk of fragments below the minimum stands alone only if joining would exceed the maximum or cross into another section where sections are kept apart |
| `ChunkSizes.ChunkSizeBound` | src/chunk.rs:334-428 | content of a chunk, counted as trimmed pieces plus two per join, is at most the effective maximum + 201 |
| `ChunkSizes.IsolatedChunkSize` | src/chunk.rs:268-428 | with sections isolated the bound holds of the trimmed text itself |
| `Accumulation.NeighboursMergeWhileTheyFit` | src/chunk.rs:393-428 | neighbouring small sections end in different chunks only if together they would exceed the target |
| `EmissionLaws.SectionsFillTarget` | src/chunk.rs:246-267 | in terms of the configuration: neighbouring sections merge exactly when the chunk, a join, the next section and the breadcrumb reserve fit the target |
| `Emission.EmittedChunk` | src/chunk.rs:434-471 | the body stands at the reported offset, the lines lie in the reported section range, chunks do not go back |
| `Emission.PrefixFitsReserve` | src/chunk.rs:132-134 | breadcrumb and separator never exceed what was reserved for them |
| `Emission.EmittedSize` | src/chunk.rs:257-267 | without a description, prefix and content together are at most the configured maximum + 201 |
| `EmissionLaws.LimitsAre` | src/chunk.rs:246-270 | breadcrumbs take the most that is within 200 and a quarter of the maximum, or nothing when off; the limits are what is left |
| `EmissionLaws.EmittedLines` | src/chunk.rs:307-320 | a chunk's lines are exactly those of its first character and of its end, counted in newlines of the body |
| `EmissionLaws.EmittedSection` | src/chunk.rs:460-474 | a chunk reports the text, level and subtree lines of the heading it is attributed to; the preamble and the whole document by lines alone |
| `EmissionLaws.PrefixIs` | src/chunk.rs:229-239 | the breadcrumb before a chunk is all of the path that there is room for, the whole of it if it fits, and nothing without heading or room |
| `EmissionLaws.JoinPathAppend` | src/chunk.rs:233 | two paths put together are joined by the separator |
| `EmissionLaws.EmittedText` | src/chunk.rs:434-459 | a chunk is its breadcrumb, then the description if there is one and it is wanted, then the body |
| `Contradictions.RankOrder` | src/contradictions.rs:265-267 | best score first, then path, is a total order, so the ranking is determined |
| `Neighbours.BestIsHighest` | src/contradictions.rs:248-264 | a document is scored exactly when some hit for it counts, and by the highest such hit |
| `Neighbours.ListIsTop` | src/contradictions.rs:265-267 | the list is in rank order, as long as the limit and the hits allow, and every scored document left out ranks behind every listed one |
| `Ordering.TextLeIs` | src/contradictions.rs:219 | paths are ordered by the first character in which they differ, a shorter prefix first |
| `Neighbours.NeighboursAre` | src/contradictions.rs:248-267 | in terms of the parameters: at most top_k neighbours, each with a hit at the similarity floor, and no document with such a hit left out of a list that is not full |
| `Neighbours.NoneListedByAdding` | src/contradictions.rs:248-267 | a document new to the index can push others off a list but brings none but itself onto it |
| `Quiescence.PruneRows` | src/state.rs:1590-1612 | what survives pruning is every row between known documents and every known document's mark, unchanged; without any document, everything |
| `ContradictionRun.StateDb.Upsert` | src/state.rs:1478-1512 | one row per unordered pair: a pair given the wrong way round is stored swapped, hashes with it |
| `ContradictionRun.StateDb.MarkAnalyzed` | src/state.rs:1435-1452 | each listed document is marked at its current hash, no other mark changes |
| `ContradictionRun.StateDb.DeleteStale` | src/state.rs:1552-1584 | for each document in turn its outdated rows go and the other end of each loses its mark |
| `ContradictionRun.ScanChanged` | src/contradictions.rs:221-286 | the scanning loop, cancellation and failed lookups included |
| `ContradictionRun.AddRetries` | src/contradictions.rs:288-310 | unjudged rows join the work in whatever order the map yields them |
| `ContradictionRun.EvaluatePair` | src/contradictions.rs:391-484 | one evaluation: row written, counters updated, or skipped with nothing written |
| `ContradictionRun.EvaluateWork` | src/contradictions.rs:312-346 | the evaluation loop with cap, cancellation and failure breaker |
| `ContradictionRun.MarkAndDrop` | src/contradictions.rs:350-366 | marking and dropping after the evaluation |
| `ContradictionRun.RunOnce` | src/contradictions.rs:189-379 | a run on the stored tables ends in the state, and reports the summary, of the run said on values |
| `RunLaws.ScanFacts` | src/contradictions.rs:227-286 | the work is exactly the unsettled pairs the visited documents ask for, with current hashes |
| `RunLaws.DropStaleRows` | src/state.rs:1552-1584 | a row is dropped exactly when some finished document finds it outdated |
| `RunLaws.DropStaleMarks` | src/state.rs:1552-1584 | a document loses its mark exactly when it is the other end of a row for the first finished document that finds the row outdated; no other mark changes |
| `RunLaws.DropStaleReopens` | src/state.rs:1556-1570 | in particular the other document of a dropped pair loses its mark unless it was itself finished |
| `RunLaws.MarkingIsSound` | src/contradictions.rs:350-366 | under any cap, failures, skips and cancellation: a newly marked document has a current row for every top neighbour and no outdated row |
| `RunLaws.CountsAddUp` | src/contradictions.rs:312-348 | evaluated + skipped + deferred is the work, with no underflow, and evaluated is at most the cap, no pair twice |
| `RunReport.WorkIs` | src/contradictions.rs:214-310 | the work is exactly the unsettled pairs scanned documents ask for, at the highest score asked, and with a judge and no cancellation the stored candidates, failed calls included |
| `RunReport.InPathOrder` | src/contradictions.rs:214-219 | changed documents and waiting pairs are taken in path order, each once |
| `RunReport.RunIs` | src/contradictions.rs:286-348 | how far the loops get (cap, cancellation, five failed calls in a row, skips not counted), which pairs get a row, and what every counter of the summary counts |
| `RunReport.RowsSay` | src/contradictions.rs:391-484 | each row written repeats its work item and says the judge's answer: conflict, no conflict, candidate without a judge, candidate with an error after a failed call |
| `RunInvariant.RunKeepsInv` | src/contradictions.rs:189-379 | a run keeps: every analysed document has for each top neighbour a row at its current hash, outdated only if the neighbour awaits analysis |
| `RunInvariant.StoreKeepsInv` | src/contradictions.rs:204-219 | adding or editing a document keeps that exactly when: content last analysed comes back only to the rows of that analysis, and no analysed document lists it without a row of the two |
| `RunInvariant.EditIsSafe` | src/contradictions.rs:210-219 | so every edit to content other than the last analysed keeps it |
| `RunInvariant.AddIsSafeIff` | src/contradictions.rs:210-219 | and adding an unseen document does exactly when no analysed document lists it |
| `RunInvariant.RemoveKeepsInv` | src/state.rs:1395-1421 | removing a document keeps it exactly when every neighbour an analysed document gains is covered already |
| `RunInvariant.RemovedIsGone` | src/state.rs:1395-1421 | a removal takes the document, its mark and its pairs, and nothing else |
| `RunInvariant.ReachableInv` | src/contradictions.rs:189-379 | it holds after every history, from nothing analysed, of runs in any environment and of additions, edits and removals that meet those conditions |
| `RunLimits.ReversionBreaksInv` | src/contradictions.rs:204-219 | a history from nothing analysed, of runs and an edit, after which taking the edit back leaves a document marked with a row for other content |
| `RunLimits.RemovalBreaksInv` | src/state.rs:1395-1421 | a history after which a removal promotes a neighbour that nothing compares: the analysed document is not scanned again |
| `RunLimits.AdditionBreaksInv` | src/contradictions.rs:204-219 | the same by adding a document that enters an analysed document's list |
| `Convergence.NextPending` | src/contradictions.rs:214-366 | exactly what the next run has to do: this run's work and what reopened documents need, less what was evaluated; who is reopened is said of the stored rows |
| `Quiescence.NextWorkExactly` | src/contradictions.rs:214-366 | the next work is this work less what was evaluated exactly when no reopened document needs a pair outside this work |
| `RunLimits.OutdatedRowsReopen` | src/contradictions.rs:350-366 | a history from nothing analysed, of runs and an edit, after which a run finds no work and the next run does |
| `Quiescence.NextWork` | src/contradictions.rs:214-366 | so it is whenever no outdated row is stored |
| `Quiescence.ExactlyOnce` | src/contradictions.rs:312-346 | with no outdated rows stored, each run evaluates its cap's worth of the initial work in path order, right after what the earlier runs had room for; caps and judge answers may change from run to run |
| `Quiescence.QuietAfterCapacity` | src/contradictions.rs:189-379 | once the runs could evaluate all the initial work, the next run scans and evaluates nothing |
| `Quiescence.NeverTwice` | src/contradictions.rs:169-185 | from any stored state, a pair evaluated once never waits again |
| `Quiescence.Progress` | src/contradictions.rs:189-379 | from any stored state, a run that finds anything to do brings the state strictly nearer to rest |
| `Quiescence.ComesToRest` | src/contradictions.rs:189-379 | from any stored state, the runs come to rest within a bound known beforehand |
| `Quiescence.QuietRunIsIdle` | src/contradictions.rs:189-379 | a run at rest changes nothing and reports zeros |
| `Embedding.BatchesHoldTexts` | src/embed.rs:57-83 | batches hold the prefixed texts in order, every batch full but the last |
| `Embedding.SortKeeps` | src/embed.rs:151-153 | sorting any reply keeps every entry as often as it came and puts the indexes in order, repeated ones included |
| `Embedding.SortAligns` | src/embed.rs:151-153 | however the service orders a reply, the sorted vectors line up with the batch's texts |
| `Scheduling.EveryState` | src/embed.rs:250-292 | for every completion order: in flight at most the limit, exactly the limit while batches wait, each result in its own slot only |
| `Scheduling.InFlight` | src/embed.rs:250-260 | never more in flight than the configured concurrency, one if it is zero, and exactly that many while batches wait |
| `Embedding.RequestsInFlight` | src/embed.rs:172-203 | the same for a corpus, however it is cut into batches |
| `Scheduling.FinishOnce` | src/embed.rs:260-292 | no batch finishes twice |
| `Scheduling.FinishedIsDone` | src/embed.rs:260-292 | a batch that finished, well or not, is no longer in flight |
| `Scheduling.EachFinishesOnce` | src/embed.rs:260-292 | a completed run has finished every batch exactly once |
| `Scheduling.NoEmptySlot` | src/embed.rs:294-302 | the loop cannot end with a batch unspawned or a slot empty |
| `Scheduling.OrderDoesNotMatter` | src/embed.rs:206-228 | for every completion order the result is the input-order concatenation of the batch results |
| `Scheduling.FailureIsABatch` | src/embed.rs:269-275 | an error is that of the batch that finished last, all earlier ones having succeeded |
| `Scheduling.SucceedsIffAllEmbed` | src/embed.rs:269-275 | a run that cannot go on succeeded exactly when every batch did |
| `Scheduling.ReportsAddUp` | src/embed.rs:276-277 | at every moment the sizes reported add up to the texts of the finished batches |
| `Embedding.EmbedBatchesOrdered` | src/embed.rs:236-305 | the loop with any choice of next batch: success exactly when all succeed, results in input order, reports adding up |
| `Embedding.EmbedTexts` | src/embed.rs:172-203 | end to end: success exactly when the service answers every batch, output k the vector of the prefix followed by text k, an error what the service said of some batch |
| `Frontmatter.SameSpelling` | src/document_fields.rs:68-93 | two numbers share a spelling exactly when equal, but for the float 2^64 and the integer below it |
| `Frontmatter.ShowIsPossible` | src/document_fields.rs:77-92 | float text as that asks for exists when every multiple of a given fraction is a float, so for all doubles |
| `Projection.TopKeysOrdered` | src/document_fields.rs:214-219 | every key once, lists of containers after all other fields |
| `Projection.RenderInjective` | src/document_fields.rs:277-312 | for names without separators the text of a path determines the path |
| `ProjectionLaws.RowsAreLeaves` | src/document_fields.rs:246-317 | a value's rows pair off one to one with its non-null scalars within the depth limit, each row with the path, element, text and number of its place |
| `ProjectionLaws.DocumentRowsAreLeaves` | src/document_fields.rs:184-234 | the same for a document, title and description apart; no path is longer than 16 steps |
| `RowValues.RowsSpellValues` | src/document_fields.rs:49-172 | each row spells its scalar (strings as they are, booleans as their literals, whole numbers within 64 bits as digits) and measures it by the type its schema node declares |
| `RowValues.GoverningNode` | src/document_fields.rs:172-186 | what governs the elements of a list: its items node, else a scalar type of its own, else nothing; what governs a field: its declaration |
| `RowValues.DecimalReads` | src/document_fields.rs:68-93 | decimal text reads back as the number, minus sign first, without needless zeros |
| `Elements.ElementAgreement` | src/document_fields.rs:262-287 | the rows under a list with element e are exactly the projection of element e, in order, nested lists included |
| `Elements.CorrelatedFilter` | src/document_fields.rs:30-47 | some element meets all conditions over the nested list exactly when some group of rows does |
| `StoredFilters.StoredFilterAgrees` | src/document_fields.rs:416-431 | the same over the stored rows, below the row cap and for names without separators |
| `Flattening.Sink.PushLeaf` | src/document_fields.rs:416-431 | one row for a scalar, none for null |
| `Flattening.FlattenValue` | src/document_fields.rs:246-317 | the recursive walk leaves the list as it was plus the value's rows, cut at the row cap |
| `Flattening.FlattenFrontmatter` | src/document_fields.rs:208-234 | the stored rows are the first 2000 of the uncapped projection; the final truncation removes nothing |
| `Flattening.PlainFieldsNotStarved` | src/document_fields.rs:213-219 | rows of fields other than lists of containers are all stored if they fit by themselves |
| `JsonScan.NextJsonObject` | src/judge.rs:246-279 | the scanning loop computes the scan on values, and its depth counter never underflows |
| `JsonScan.NextObjectIs` | src/judge.rs:246-279 | the scan finds the first brace and the first place it is closed, or nothing exactly when there is none |
| `JsonScan.ParseVerdictText` | src/judge.rs:302-323 | the loop over candidate objects ends and computes the parse on values |
| `JsonScan.ParseIs` | src/judge.rs:302-323 | a reply parses to v exactly when some closed object reads as v and every object opened before it is closed and does not |
| `JsonScan.UnclosedFirstBrace` | src/judge.rs:302-323 | a reply whose first brace is never closed is refused whatever follows |
| `JsonScan.UnclosedBraceHides` | src/judge.rs:302-304 | a reply in which a stray unclosed brace hides a verdict |
| `JsonText.ScanUndoesPrint` | src/judge.rs:246-279 | any printed object, after text without a brace and before any text, is found exactly |
| `JsonText.PrintedVerdictIsRead` | src/judge.rs:302-323 | a verdict printed into a reply is what the reply parses to |
| `Fences.ChooseFence` | src/judge.rs:179-186 | the loop picks the shortest fence of five or more that neither text contains |
| `Fences.CannotCloseOwnFence` | src/judge.rs:179-201 | a text without the fence cannot hold, start or end one between the fence lines |

## Left out

- Markdown parsing, the text splitter, case folding, date parsing and JSON decoding: library code, taken as assumptions.
- `body_line_offset` and frontmatter delimiters: they depend on a library's rules.
- Byte and character lengths: one measure is used for both, so offsets count characters and a multi-byte character counts once.
- The raw length of chunks merged across sections: whitespace at joins is not counted by the check that decides to merge, so `ChunkSizes.ChunkSizeBound` bounds the content, and only isolated chunks are bounded by their trimmed text.
- ChunkSizes.ChunkSizeBound: assumes every section shows something (`HeadingsVisible`) and a target no larger than the maximum; the source's configuration check and parser give both.
- Embedding.SortAligns: the service is taken to answer every index once; the source does not check that it does.
- RunInvariant.ReachableInv: additions, edits and removals meet conditions that `RunInvariant.StoreKeepsInv` and `RunInvariant.RemoveKeepsInv` show cannot be weakened; `RunLimits` has a history that breaks the invariant for each. The hits the store gives for a document are taken to stay the same through a history.
- Quiescence.ExactlyOnce: lookups, reads and judge calls succeed, nothing is cancelled, and the store, its limits and whether there is a judge stay the same from run to run; with outdated rows stored `Convergence.NextPending` gives the exact next work instead.
- A row's confidence, statements, judge model, time and error text; document text budgets; the lock around a run; database errors that abort a run half way.
- Scores and numbers are reals: not-a-number, negative zero and the rounding of large integers to floats are not modelled.
- The Qdrant payload written beside the projection, which has no cap and adds only a coercion per scalar.
- Task aborts after the first embedding error, retries and timeouts: they change how long a run takes, not what it returns.
- Network clients, SQLite, Qdrant, git, configuration, linting, evaluation scores, rendering and prompt wording: single-step code that would add only easy members.

# A verified model of the search index

This project models the concurrent heart of a full-text and vector search library and
proves what its parts promise each other. `dafny verify dfyconfig.toml` checks it all.

The text index keeps immutable segments behind a root snapshot that one introducer
replaces. Batches, merges and persists are prepared elsewhere on older roots and race to
be introduced; files are written and reclaimed while readers hold old snapshots.

- `Segments`, `Introducer`, `LiveDocuments`: segments as document sequences with deleted
  numbers, the introducer's three operations as methods, and what each does to the bag of
  live documents.
- `DeletionPolicy`, `Persisting`: which files may go, and the snapshot the persister writes.
- `IndexProtocol`, `IndexSafety`, `IndexTheorems`: the whole as a state machine whose
  process may stop between any two steps; its invariant; the theorems over every run.
- `IndexHistory`: an account of a run computed from its events alone, and that the index
  holds exactly that.
- `RefCounts`: who holds the file behind a segment, and when it is closed.

Scored searches skip blocks of postings by their impacts.

- `Impacts`, `ImpactCoding`, `ImpactDecoding`: the frontier of a block, its encoding, and
  the forward cursor, for data of any shape.
- `TermSegments`, `PostingsIterators`: the cursors of many segments as one iterator.
- `TopMatches`, `DisjunctionMatches`: searches for one term and for several, which skip and still
  give exactly the ranking of everything.

A collection keeps vectors beside the text, in generations that processes publish, pin
and reclaim in one directory.

- `VectorChanges`, `KeyedVectors`: batches of changes and the two stores that apply them.
- `VectorRevisions`, `CollectionReaders`, `Identifiers`: which vectors a generation holds
  and which of them a reader sees.
- `Generations`, `GenerationSafety`, `GenerationTheorems`: the directory protocol with one
  file operation a step, its invariant, and the theorems over every run.
- `GenerationHistory`: an account of a run computed from its events alone, and that the
  newest generation, and what a reader gets, is exactly that.

Algorithms with a specification of their own: `Utf8`, `TextChunks` and `TextImport` (long
texts cut into overlapping chunks and imported in batches), `CandidateRanking` (ranking that
reads few identifiers), `MergePlanning` and `MergeConvergence` (choosing merges, and why that
comes to an end), `DictionaryMerge` (the terms of all segments from one heap), `FlatCodec`
(the file of the flat vector store), `PrefixCoding` (numbers whose byte order is their
order). `Basics` and `ByteOrder` hold what several modules share.

Where the code does not do what one would expect, the model follows the code:

- A deletion policy that keeps no snapshot can lose a segment file that a snapshot lists;
  snapshot files are safe if and only if it keeps at least one
  (`IndexTheorems.ReadableExactlyWhenOneIsKept`, `KeepingNoneLosesFiles`).
- When the writer closes, the persister may stop waiting and close its replacements while
  the introducer still uses the map they are in; the root then contains a closed file. The
  counts are exact if and only if no such replacement is introduced
  (`RefCounts.StepKeepsInvExactly`, `AbandonedReplacementIsClosed`).
- A prefix-coded number of shift 63 is encoded but not decoded, although the type's comment
  allows shifts 0 to 63 (`PrefixCoding.DecodesBelow63`, `Shift63DoesNotDecode`).
- The flat vector store writes strings of more than 64 MiB and vectors of more than 16 Mi
  dimensions, and then cannot read its file (`FlatCodec.DecodesExactlyWhenItFits`,
  `WrittenButNotRead`).
- The planner's comment gives every merge task the number of segments the option names. A
  task with live documents has that number if and only if that many of the eligible
  segments fit its size limit from where its scan starts (`MergePlanning.GreedyWidth`,
  `NarrowTask`); the task of empty segments has all of them (`EmptyTaskWidth`, `WideTask`).
- A shallow advance is documented to move only the impact cursor, but moves the iterator to
  the segment it reaches. What is returned next is undisturbed if and only if nothing was
  left in the segments moved over (`PostingsIterators.PostingsIterator.AdvanceShallow`,
  `ShallowLosesAPosting`).
- A search backwards is meant to start over, but does so only at or before the current
  posting. A search misses nothing if and only if it starts over or everything taken so far
  lies below its number (`PostingsIterators.PostingsIterator.Advance`,
  `BackwardSearchMisses`).
- The chunker is meant to add a character to every chunk. On malformed text a chunk may end
  where the one before does: if and only if no character starts between that end and the
  chunk's limit (`TextChunks.TextChunkReader.Next`, `RepeatsAnEnd`).
- The keyed vector store gives key 1 out again after the last of its 64-bit keys; keys stay
  apart if and only if keys are left (`KeyedVectors.KeyedExactly`).

## Model

| member | source | states |
|---|---|---|
| Segments.LiveBagSize | index/segment.go:95-102 | the live documents of a segment number its documents minus its deleted ones |
| Segments.LiveBagExactly | index/segment.go:95-102 | a document is live as often as it is there and not deleted |
| Segments.LiveBagObsolete | index/writer.go:402-412 | marking the documents that match identifiers deletes exactly those from the live ones |
| Segments.NewDocNumInjective | index/merge.go:435-452 | a merge gives different surviving documents of its sources different new numbers |
| Segments.MergedBag | index/merge.go:320-346 | masking new numbers in a merged segment leaves what marking the old numbers in the sources would leave |
| Segments.MergedBagUnmasked | index/merge.go:435-452 | a merged segment holds exactly the live documents of its sources |
| Introducer.Writer.PrepareSegment | index/writer.go:385-418 | a batch gets the next segment id and the optimistic deletions of every segment of the root it saw, or fails |
| Introducer.Writer.ObsoleteSegments | index/introducer.go:103-142 | each segment gets its optimistic deletions, or freshly computed ones if it was not seen; empty ones go; offsets are running counts |
| Introducer.Writer.IntroduceSegment | index/introducer.go:84-179 | the new root is the surviving segments and the batch's own, or on an error the old root |
| Introducer.Writer.IntroducePersist | index/introducer.go:181-237 | exactly the segments whose files were written become persisted; ids, deletions and offsets stay |
| Introducer.SegmentMerge.ProcessSegmentNow | index/merge.go:320-346 | a source met in the root leaves the plan, and the new numbers of its deletes since the plan join the mask |
| Introducer.Writer.KeepSegments | index/introducer.go:255-281 | sources go, empty segments go, the others stay in order, and late deletes of present sources are masked |
| Introducer.Writer.MaskVanished | index/introducer.go:283-296 | every document of a source no longer in the root is masked |
| Introducer.Writer.IntroduceMerge | index/introducer.go:241-336 | the new root and the skip decision as functions of the root, the plan and the document-number tables, for any deletes since the plan |
| Introducer.CurrentFound | index/merge.go:320-330 | looking a source up by id finds its present form |
| Introducer.PersistOffsets | index/introducer.go:196-226 | offsets are unchanged by a persist |
| LiveDocuments.StalePreparationAgrees | index/writer.go:402-412 | deletions computed on any earlier root are right for every segment still in the present one |
| LiveDocuments.SurvivorsBag | index/introducer.go:103-142 | the surviving segments hold the old live documents without those that match |
| LiveDocuments.BatchIntroduced | index/introducer.go:84-179 | introducing a batch on any later root deletes exactly the matching documents and adds exactly its own |
| LiveDocuments.PersistKeepsBag | index/introducer.go:181-237 | a persist changes no live document |
| LiveDocuments.MaskedIsLate | index/merge.go:320-346 | the mask holds exactly the new numbers of documents deleted, or vanished with their segment, since the plan |
| LiveDocuments.MergeIntroduced | index/introducer.go:241-336 | a merge leaves the live documents unchanged, whatever was deleted or vanished since its plan, and also when it is skipped |
| LiveDocuments.MergedIsPresent | index/introducer.go:300-321 | the merged segment under its mask holds what the sources still in the root hold live |
| LiveDocuments.PlannedIsIntroducible | index/merge.go:278-298 | a planned merge looks up only numbers and segments that exist, exactly when its sources without documents are still in the root |
| DeletionPolicy.CommitKeepsValid | index/deletion.go:47-65 | a commit of a newer epoch keeps the epochs in order, and min(n, one more than before) of them live |
| DeletionPolicy.CleanupKeepsValid | index/deletion.go:75-113 | cleanup keeps the policy's books valid and touches no live epoch, whichever removals fail |
| DeletionPolicy.CleanupKeepsComplete | index/deletion.go:75-113 | no cleanup removes a segment file that a remaining snapshot file lists, whichever removals fail |
| DeletionPolicy.KeepNLatest.CommitSnapshot | index/deletion.go:47-65 | after a commit the files are known, the epochs committed are those before and the new one, and the last min(n, one more than before) of them are live |
| DeletionPolicy.KeepNLatest.TrackSegmentFiles | index/deletion.go:69-73 | tracked files become known |
| DeletionPolicy.KeepNLatest.Cleanup | index/deletion.go:75-113 | one pass tries exactly the deletable snapshots, and then exactly the unreferenced segments, that are not locked; what could be removed leaves the books, live epochs stay |
| Persisting.CollectInMemory | index/persister.go:280-296 | exactly the segments only in memory, in order |
| Persisting.EquivalentSnapshot | index/persister.go:315-346 | the snapshot written after an in-memory merge: exactly the segments already on disk and one of the merged documents |
| IndexSafety.PrepareBatchStep | index/writer.go:385-435 | preparing a batch on any past root keeps the invariant |
| IndexSafety.IntroduceBatchStep | index/introducer.go:84-179 | introducing a batch keeps the invariant |
| IndexSafety.PlanMergeStep | index/merge.go:177-231 | planning a merge on any past root and writing its file keeps the invariant |
| IndexSafety.IntroduceMergeInKeeps | index/introducer.go:241-336 | introducing or skipping a merge keeps the invariant |
| IndexSafety.RemoveOrphanStep | index/merge.go:259-271 | removing the file of a skipped or failed merge keeps the invariant |
| IndexSafety.DoneMemoryMergeStep | index/persister.go:302-348 | after an in-memory merge the persister goes on with an equivalent snapshot |
| IndexSafety.SwapInStep | index/persister.go:414-444 | swapping in written segments keeps the invariant |
| IndexSafety.WriteSnapshotStep | index/persister.go:404-409 | writing a snapshot file and committing it keeps the invariant |
| IndexSafety.CleanupStep | index/deletion.go:75-113 | cleanup keeps the invariant |
| IndexSafety.OpenStep | index/writer.go:191-226 | reopening from the newest snapshot, with ids above every file, establishes the invariant |
| IndexTheorems.GiveUpMergeStep | index/merge.go:377-409 | an in-memory merge whose file cannot be loaded, or that the closing writer does not wait for, keeps the invariant |
| IndexTheorems.StepKeepsInv | index/introducer.go:43-82 | every step of every process, failing ones included, keeps the invariant |
| IndexTheorems.RunKeepsInv | index/introducer.go:43-82 | the invariant holds in every run from an empty directory that keeps at least one snapshot |
| IndexTheorems.RootHoldsLog | index/introducer.go:84-179 | in every run the root's live documents are the batches of the log applied in order to a plain bag |
| IndexTheorems.SnapshotFilesAreBatches | index/persister.go:356-412 | in every run each snapshot file has all its segment files and denotes the first batches, those its root held |
| IndexTheorems.CrashKeepsPersisted | index/writer.go:191-226 | a stop between any two steps loses no batch reported persisted, and reopening gives a prefix of the batches |
| IndexTheorems.StepKeepsPersisted | index/persister.go:86-98 | no step shortens the persisted prefix |
| IndexTheorems.PersistedForever | index/persister.go:86-98 | a batch reported persisted stays in place for the rest of the run |
| IndexTheorems.MergesAreIntroducible | index/introducer.go:283-296 | in every run a pending merge looks up only existing numbers and segments |
| IndexTheorems.KeepingNoneLosesFiles | index/deletion.go:60-64 | with n == 0 there is a run that leaves a snapshot file without its segment file |
| IndexTheorems.ReadableExactlyWhenOneIsKept | index/deletion.go:39-65 | snapshot files are complete in every run if and only if n >= 1 |
| IndexHistory.PreparedIsTheBatch | index/writer.go:385-418 | preparing a batch on any root leaves pending, under the next number, exactly its documents and identifiers, and changes nothing else |
| IndexHistory.IntroducedIsTheBatch | index/introducer.go:84-179 | introducing it puts it at the end of the log, takes every live document away that shares a term with its identifiers, and adds its documents, each as often as it has it |
| IndexHistory.PlannedIsTheTask | index/merge.go:177-231 | a planned merge has the segments of its task with live documents, in order, and its file holds their live documents |
| IndexHistory.MergeReplacesItsSources | index/introducer.go:241-336 | introducing a merge takes its sources and the empty segments out of the root, leaves the others, and puts one segment in their place if and only if a document of a source is still live |
| IndexHistory.RunIsTold | index/introducer.go:43-82 | in every run the log, the pending batches, the files and the snapshots are those that a plain account of the events gives |
| IndexHistory.RootIsTheBatches | index/introducer.go:84-179 | in every run the root's live documents are those of a plain bag to which the batches that the events introduced, and no stop cut off, are applied in turn |
| IndexHistory.NewestSnapshotsAreKept | index/deletion.go:47-65 | in every run the newest snapshots written, n of them if there are as many, are on disk and complete, and each denotes the batches introduced when it was taken |
| RefCounts.KeepFiles | index/introducer.go:131-143 | an introduction that keeps files raises each file's count by its places in the new root and closes nothing |
| RefCounts.Snapshot.DecRef | index/snapshot.go:71-86 | dropping a snapshot's last reference lowers each file's count by its places there, and closes once exactly those that had no other reference; an earlier drop changes no file |
| RefCounts.DropAllFacts | index/segment_plugin.go:167-177 | dropping a list of files takes from each count the number of its places, and closes a file once exactly if that was all |
| RefCounts.ReleaseKeepsCounters | index/snapshot.go:71-86 | releasing a snapshot keeps every count equal to its references |
| RefCounts.ReplaceKeeps | index/introducer.go:338-356 | replacing the root keeps every count equal to its references |
| RefCounts.IntroduceSegmentKeeps | index/introducer.go:131-143 | a batch counts kept segments before the old root is released |
| RefCounts.IntroduceMergeKeeps | index/introducer.go:253-326 | a merge moves the merged file's reference into the root, or leaves it with the merger when skipped |
| RefCounts.ApplyPersistKeeps | index/introducer.go:201-217 | claimed replacements move into the root, unclaimed ones stay with the persister |
| RefCounts.IntroductionIs | index/introducer.go:338-356 | which files the new root has after a batch, a merge, a persist or an opening, who has a reference of it, whose references were taken over, and that the old root has one less |
| RefCounts.OtherStepIs | index/snapshot.go:61-86 | what opening and closing snapshots, loading and dropping files, and handing replacements on does to every holder |
| RefCounts.StepKeepsInvExactly | index/persister.go:414-444 | a step keeps the counts exact if and only if it does not introduce a replacement from a map its persister has given up |
| RefCounts.RunKeepsInv | index/introducer.go:338-356 | counts are exact throughout such runs |
| RefCounts.ClosedOnceAndLast | index/segment_plugin.go:155-177 | in such runs a file is closed at most once, exactly when nothing refers to it, and never while an open snapshot has it |
| RefCounts.TakenIsClosed | index/persister.go:416-441 | whenever a replacement its persister gave up, and nobody else refers to, is introduced, the new root contains it closed |
| RefCounts.AbandonedReplacementIsClosed | index/persister.go:416-441 | a run of closing down in which the new root contains a file that is already closed |
| Impacts.UvarintRoundTrip | internal/zapxtext/impact.go:114-116 | a written integer below 2^64 is read back with its length |
| Impacts.AntichainPairs | internal/zapxtext/impact.go:59-77 | no pair of a frontier dominates another |
| Impacts.AddImpactFacts | internal/zapxtext/impact.go:59-77 | adding a pair keeps the frontier an antichain that covers the pair |
| Impacts.AddImpactCovers | internal/zapxtext/impact.go:59-77 | what was covered stays covered |
| Impacts.FrontierFacts | internal/zapxtext/impact.go:59-77 | a block's frontier is an antichain of its own pairs, covers every posting, and is no longer than the block |
| Impacts.SameMaximum | internal/zapxtext/impact.go:59-77 | a score rising in frequency and falling in norm has the same maximum on frontier and block |
| Impacts.SortImpactsFacts | internal/zapxtext/impact.go:83-93 | insertion sort reorders the pairs into ascending order |
| Impacts.EncodeBlocksSnoc | internal/zapxtext/impact.go:94-104 | one more block appends its encoding, its end stored as a difference |
| Impacts.UvarintBytes | internal/zapxtext/impact.go:114-116 | the bytes of three integers: seven bits each, lowest first |
| Impacts.BlockBytes | internal/zapxtext/impact.go:94-104 | the bytes of a list of two blocks: ends as differences, the number of pairs, the pairs |
| ImpactCoding.ImpactCoder.Reset | internal/zapxtext/impact.go:37-45 | only lists of at least 128 postings get impacts |
| ImpactCoding.ImpactCoder.IsCovered | internal/zapxtext/impact.go:60-65 | finds whether a pair is dominated already |
| ImpactCoding.ImpactCoder.Squeeze | internal/zapxtext/impact.go:67-74 | moves the undominated pairs to the front, in order |
| ImpactCoding.ImpactCoder.AddToFrontier | internal/zapxtext/impact.go:59-77 | the array's front holds the frontier with the pair added |
| ImpactCoding.ImpactCoder.InsertOne | internal/zapxtext/impact.go:85-92 | one round of the in-place insertion sort |
| ImpactCoding.ImpactCoder.SortFrontier | internal/zapxtext/impact.go:83-93 | sorts the frontier in place |
| ImpactCoding.ImpactCoder.FlushBlock | internal/zapxtext/impact.go:79-105 | writes the open block after the blocks already written and starts a new one |
| ImpactCoding.ImpactCoder.Add | internal/zapxtext/impact.go:47-57 | keeps every posting added; until the end is reached only full blocks of 64 are written |
| ImpactCoding.ImpactCoder.Finish | internal/zapxtext/impact.go:118-155 | the stored bytes are the block count and the blocks of exactly the postings added, 64 in each block but the last, so one block for every 64 postings begun |
| ImpactDecoding.ImpactDecoder.Reset | internal/zapxtext/impact.go:167-182 | opens data of any shape at its first block, or fails on a bad block count |
| ImpactDecoding.ImpactDecoder.ReadUvarint | internal/zapxtext/impact.go:226-236 | reads one integer or reports a short or overlong one, for data of any shape |
| ImpactDecoding.ImpactDecoder.ReadBlock | internal/zapxtext/impact.go:189-220 | reads one block or reports bad counts, short data or an end beyond 64 bits |
| ImpactDecoding.ImpactDecoder.AdvanceShallow | internal/zapxtext/impact.go:184-224 | for data of any shape, the answer and cursor that the value-level cursor gives |
| ImpactDecoding.ParseBlockRoundTrip | internal/zapxtext/impact.go:94-104 | an encoded block is read back |
| ImpactDecoding.AdvancedIsFirst | internal/zapxtext/impact.go:184-224 | on encoded blocks the cursor lands on the first block ending at or after the target |
| ImpactDecoding.AnswersAreFirst | internal/zapxtext/impact.go:184-224 | for any nondecreasing targets every answer is the first such block |
| ImpactDecoding.BlockIsSound | internal/zapxtext/impact.go:184-224 | every posting from the target to the block's end is dominated by the block's pairs, which are pairs of real postings |
| ImpactDecoding.AnswerEndsBlock | internal/zapxtext/impact.go:47-57 | with blocks of 64 an answer ends at the posting whose position is one below a multiple of 64, or at the last, and the block before ends below the target |
| ImpactDecoding.StoredImpactsAreSound | internal/zapxtext/impact.go:47-105 | coding a list and asking any nondecreasing targets gives sound answers and never an error, and with blocks of 64 each ends at the 64th posting of its block or at the last of all |
| TermSegments.LiveFacts | index/postings.go:119-125 | the live postings are the stored ones of documents not deleted, in order |
| TermSegments.ShallowInIsSound | internal/zapxtext/posting.go:409-440 | one segment's answer is sound and its cursor stays in front of later targets |
| TermSegments.WalkIsSound | index/postings.go:154-193 | a walk over the segments reports a segment and an end such that every live posting from the target to the end is there and dominated, or nothing when nothing is left; never an error |
| TermSegments.WalkGoesForward | index/postings.go:166-191 | no segment before the target's is reported |
| TermSegments.WalkLeadsTo | index/postings.go:165-191 | a walk passes over a segment only if the term has no live posting there, or no block that ends at or after the target; it ends with the pairs and the end of the first such block, or with the last document of a segment without impacts |
| PostingsIterators.PostingsIterator.SegmentOf | index/snapshot.go:325-333 | binary search finds the last segment whose offset is not above the number |
| PostingsIterators.PostingsIterator.Next | index/postings.go:62-79 | returns the remaining live postings of all segments in order, under global numbers |
| PostingsIterators.PostingsIterator.Advance | index/postings.go:81-117 | returns the first posting at or after the number of those it goes through; it goes through all of them if and only if it starts over or everything taken so far lies below the number |
| PostingsIterators.PostingsIterator.Count | index/postings.go:119-125 | the number of live postings |
| PostingsIterators.PostingsIterator.HasImpacts | index/postings.go:132-152 | whether any segment with live postings has impacts, cached |
| PostingsIterators.PostingsIterator.AdvanceShallow | index/postings.go:154-193 | sound for nondecreasing targets: the first block that ends at or after the target, with pairs of its segment's postings, in the first segment that is not passed over; moves the iterator to that segment, and leaves what Next returns as it was if and only if nothing was left in the segments moved over; the current posting's own block is such a case |
| PostingsIterators.SweptExactly | index/postings.go:62-79 | starting in a later segment leaves the same postings if and only if nothing is left in the segments between |
| PostingsIterators.ShallowLosesAPosting | index/postings.go:177-189 | two segments, a new iterator and a shallow advance to the second: the posting of the first is never returned |
| PostingsIterators.JumpIsFrom | index/postings.go:100-112 | going on from the segment of a number finds every posting at or after it if and only if none of them was taken before |
| PostingsIterators.BackwardSearchMisses | index/postings.go:82-93 | after a search that found nothing, a search backwards that does not start over misses a posting |
| PostingsIterators.StandsBetween | index/postings.go:177-189 | a shallow advance at or before the current posting stays between the two segments |
| TopMatches.RankedFacts | search/searcher/raw_topn.go:51-60 | ranking permutes the matches by score descending, then number |
| TopMatches.TopFacts | search/searcher/raw_topn.go:47-69 | the first of the ranking are as many as asked for, or all, in strict order, and each is better than every match left out |
| TopMatches.HitsAre | index/postings.go:62-79 | the hits are the stored postings of documents not deleted, under the segment's offset, in ascending order |
| TopMatches.BestOfHits | search/searcher/search_term.go:216-240 | the best of the hits: min(size, hits) matches, each the number and score of a hit, no number twice, in order, and no hit left out is better |
| TopMatches.CapInsert | search/searcher/raw_topn.go:62-69 | the best after an insertion depend only on the best before |
| TopMatches.CapRankedSkips | search/searcher/search_term.go:200-208 | matches no better than the worst of a full collection change nothing |
| TopMatches.OfferIsCap | search/searcher/raw_topn.go:47-69 | replacing the worst by a better match keeps the best |
| TopMatches.SkippedBlock | search/searcher/search_term.go:200-208 | a block whose upper bound does not exceed the worst of a full collection holds nothing of the best |
| TopMatches.ScoreBlock | search/searcher/search_term.go:216-240 | scores every posting up to a block's end |
| TopMatches.RawTopN | search/searcher/search_term.go:167-248 | for any rising score, searching by blocks returns min(size, hits) matches, each the number and score of a hit, no number twice, by score descending and then number, and no hit left out is better than one returned; no more hits are scored than there are |
| DisjunctionMatches.SumBounded | search/searcher/raw_topn.go:125-144 | a document's summed score is at most the summed bounds of the range |
| DisjunctionMatches.ContributionAt | search/searcher/raw_topn.go:179-192 | a term's hit of a document counts with its score |
| DisjunctionMatches.NoContribution | search/searcher/raw_topn.go:179-192 | a term without a hit of a document counts 0 |
| DisjunctionMatches.BestOfDocuments | search/searcher/raw_topn.go:179-213 | the best of the documents: min(size, documents with a hit) matches, each a document's combined sum, no number twice, in order, and no document left out is better |
| DisjunctionMatches.SkippedRange | search/searcher/raw_topn.go:148-155 | a range whose bound does not exceed the worst of a full collection holds nothing of the best |
| DisjunctionMatches.ShallowAll | search/searcher/raw_topn.go:121-144 | which terms still have hits, how far their blocks reach together, and a bound on every hit in that range |
| DisjunctionMatches.PlaceAll | search/searcher/raw_topn.go:157-166 | every searched cursor stands on its first hit at or after the target |
| DisjunctionMatches.Candidate | search/searcher/raw_topn.go:168-177 | the lowest hit of the range |
| DisjunctionMatches.ScoreCandidate | search/searcher/raw_topn.go:179-192 | the candidate's score over all its terms, every cursor moved past it |
| DisjunctionMatches.ScoreRange | search/searcher/raw_topn.go:167-215 | the best after a range is the best of every document up to its end, and each document with a hit in the range is scored once |
| DisjunctionMatches.RawTopNDisjunction | search/searcher/raw_topn.go:79-219 | for any rising scores and monotone combination, searching by ranges returns min(size, documents with a hit) matches, each the combined sum of a document with a hit, no number twice, by score descending and then number, and no document left out is better than one returned; the total counts the hits of all terms, and no document is scored twice |
| VectorChanges.StepLook | vector_flat.go:158-210 | a deletion takes the vector of its id in its field, or in all fields if it names none; a vector takes the place of what its id had in its field; nothing else changes |
| VectorChanges.AcceptedExactly | vector_flat.go:158-236 | a batch is accepted if and only if every vector has a field, finite components and a known similarity, and agrees in dimension and similarity with its field as it was and with all vectors before it; fields new to it get that shape |
| VectorChanges.SameVerdict | vector_usearch.go:347-379 | both stores accept the same batches, with the same error and the same field specifications |
| VectorChanges.LastChangeWins | vector_flat.go:158-210 | an accepted batch leaves each field and id with what its last change says |
| VectorChanges.FlatVectorIndex.ApplyVectorChanges | vector_flat.go:137-156 | all changes in order, or none when one is refused or the file cannot be written |
| KeyedVectors.BatchAdder.Add | vector_usearch.go:194-207 | a row joins the buffer, which is flushed first if and only if it is full; other dimensions are refused |
| KeyedVectors.BatchAdder.Flush | vector_usearch.go:209-220 | the buffered rows join the index |
| KeyedVectors.KeyedExactly | vector_usearch.go:428-436 | a new key keeps every id apart and every key below the next one if and only if a key is left or none was given out |
| KeyedVectors.UsearchVectorIndex.KeyOf | vector_usearch.go:428-436 | an id keeps its key, or gets the next one; with all keys given out, and exactly then, key 1 is given out again |
| KeyedVectors.UsearchVectorIndex.PlanDelete | vector_usearch.go:411-426 | plans a deletion in one field or all |
| KeyedVectors.UsearchVectorIndex.PlanPut | vector_usearch.go:428-464 | plans an addition that replaces what the id had |
| KeyedVectors.UsearchVectorIndex.ApplyField | vector_usearch.go:472-510 | carries out a field's removals and buffered additions |
| KeyedVectors.UsearchVectorIndex.ApplyVectorChanges | vector_usearch.go:381-512 | as long as the batch's new ids are no more than the keys left, two passes through a bounded adder end with the vectors, and accept the batches, of applying each change in order; keys stay distinct and below the next key |
| VectorRevisions.ValidateRecords | collection_storage.go:461-486 | accepts exactly batches of distinct well-formed records of current revisions; a conflict lists exactly the ids whose records are of another revision than the text |
| VectorRevisions.NextIsCurrent | collection_storage.go:427-438 | the next generation's revisions are all current, whatever the one before held |
| VectorRevisions.ChangesFor | collection_storage.go:413-441 | the changes are deletions of exactly the stale ids, in any order, and then the records, and the revisions are those of the next generation |
| VectorRevisions.PrepareGeneration | collection_storage.go:387-459 | in the flat store, unless its file cannot be written: stale vectors gone, records in place, the others as they were, ids of metadata and vectors the same |
| VectorRevisions.PrepareKeyedGeneration | collection_storage.go:387-459 | the same in the keyed store, as long as keys are left for the new ids |
| VectorRevisions.AppliedAgrees | collection_storage.go:426-441 | applying the deletions in any order and then the records always succeeds and gives that agreement |
| CollectionReaders.AllowedIds | collection_reader.go:186-200 | no allowed set exactly when all vectors are current, else the set that admits exactly the current ones |
| CollectionReaders.SearchesCurrentCandidates | collection_reader.go:411-442 | a search sees a stored vector exactly when it is current and a candidate |
| CollectionReaders.PendingVectors | collection_reader.go:244-288 | a page has missing or stale ids after the given one, no more than asked for, in order, and leaves one out only if it is full and the id comes after all of it |
| CollectionReaders.PagesAreAll | collection_reader.go:241-288 | page after page gives every missing or stale id once, in order |
| CollectionReaders.VectorStatus | collection_reader.go:299-328 | valid counts the current vectors, stale the others, pending the rest of the documents |
| CollectionReaders.PendingIsCounted | collection_reader.go:299-328 | the pending count is the number of ids the pages list |
| GenerationSafety.BusyIsHeld | collection_gc.go:128-142 | the lock test on a lease file finds exactly the pinned generations |
| GenerationSafety.UpsertKeeps | collection_storage.go:387-459 | staging starts from payloads that load and ends with content that agrees with the text |
| GenerationSafety.PublishPayloadKeeps | collection_storage.go:495-500 | publishing payload files under a new number touches no catalogued generation |
| GenerationSafety.TakeGateKeeps | collection_storage.go:511-526 | the catalog found under the coordinator is the one the writer remembers |
| GenerationSafety.PublishCatalogKeeps | collection_storage.go:527-539 | the catalog replacement publishes a whole generation under a number never used before |
| GenerationSafety.FailCatalogKeeps | collection_storage.go:533-538 | a failed replacement, visible or not, leaves a sound directory and a writer that must reopen |
| GenerationSafety.LockOldKeeps | collection_gc.go:257-274 | only generations without a pin are chosen for retirement |
| GenerationSafety.RetiredKeeps | collection_gc.go:278-289 | the shorter catalog still has every pinned generation and the newest |
| GenerationSafety.RenameCommitKeeps | collection_gc.go:290-300 | setting old commits aside touches no catalogued generation |
| GenerationSafety.OrphansAreFree | collection_gc.go:306-330 | no lease of an uncatalogued generation is locked |
| GenerationSafety.DeleteKeeps | collection_gc.go:332-378 | each removal of a sweep keeps the invariant and what is still to be removed |
| GenerationSafety.PinKeeps | collection_gc.go:128-142 | pinning locks the lease file that carries the newest catalogued number |
| GenerationTheorems.StepKeepsInv | collection_gc.go:251-378 | every step of writer, maintenance and readers keeps the invariant |
| GenerationTheorems.RunKeepsInv | collection_gc.go:304-330 | in every run, whatever fails and wherever processes end, no corruption is ever reported, the orphan-lease error included |
| GenerationTheorems.ReachableIsSafe | collection_catalog.go:37-66 | in every reachable state the catalog increases, every catalogued generation loads, and every pinned one is catalogued and locked |
| GenerationTheorems.NumbersAreNew | collection_storage.go:153-176 | a published number was never published before |
| GenerationTheorems.PinnedNeverChanges | collection_reader.go:62-74 | what a reader loads from its pinned generation is the same as long as it holds it |
| GenerationTheorems.NewestSurvives | collection_gc.go:278-289 | the newest generation loads unchanged until a newer one is published |
| GenerationTheorems.PublishedAgreesWithText | collection_storage.go:387-484 | every generation ever published held exactly the vectors of its metadata, all of revisions current at the time |
| GenerationTheorems.MaintenanceLeavesNothing | collection_gc.go:332-378 | when maintenance ends only files of catalogued generations are left |
| GenerationTheorems.RetiredAreFree | collection_gc.go:251-288 | a generation leaves the catalog only when no reader holds it and a newer one exists |
| GenerationHistory.NewestIsTold | collection_storage.go:387-541 | in every run the newest generation holds exactly the embeddings of a plain account of the events: the records upserted, without those whose text had changed when a later generation was staged |
| GenerationHistory.ReaderGetsNewest | collection_storage.go:140-150 | a reader that has chosen a generation, or pinned it and not yet given the coordinator back, has the greatest number ever published |
| GenerationHistory.ReaderSeesThePublished | collection_gc.go:128-142 | what a reader loads, from when it becomes ready until it ends, are the embeddings published last before it became ready |
| GenerationHistory.LockOldTries | collection_gc.go:257-274 | trying one lease marks its generation for retirement if and only if no reader holds it |
| GenerationHistory.UnheldAreRetired | collection_gc.go:251-289 | retirement leaves, besides the newest, only generations that a reader held when their lease was tried |
| Utf8.ValidCut | writer_text.go:257-262 | valid text may be cut before any byte that begins a character |
| TextChunks.PreferredTextBoundary | writer_text.go:295-323 | the last paragraph end not before the minimum, else line end, else space, else everything |
| TextChunks.PreferredFacts | writer_text.go:295-323 | that end is a character boundary and not before the minimum |
| TextChunks.PreferredExactly | writer_text.go:295-323 | it is the greatest end of a paragraph not before the minimum; without one, of a line; without one, of a space; without one, the end of the text |
| TextChunks.ChunkSizeExactly | writer_text.go:255-270 | a chunk of a longer text ends at the preferred end of what is before the last character start within the limit, not before half of that and past what is repeated |
| TextChunks.StepIsLeast | writer_text.go:274-288 | the next chunk starts at the first character that repeats no more than the overlap and leaves room for the next character |
| TextChunks.TextChunkReader.LastCut | writer_text.go:256-262 | the last character start a chunk may end at |
| TextChunks.TextChunkReader.Advance | writer_text.go:274-288 | the next chunk starts at a character, overlaps by no more than allowed, and leaves room for the next character |
| TextChunks.TextChunkReader.ChooseCut | writer_text.go:256-270 | the chunk's size, none for malformed text; past the previous end unless no character starts between that end and the limit |
| TextChunks.TextChunkReader.Next | writer_text.go:248-293 | whatever the source, a chunk is the valid text it names, within its limit and overlap, and the reader moves on by the size and step of the look-ahead; a chunk ends where the one before ends if and only if no character starts between that end and the limit, which valid text rules out |
| TextChunks.RepeatsAnEnd | writer_text.go:264-270 | eight letters and a malformed character, read with a limit of 8 and an overlap of 7: the second chunk ends where the first does |
| TextChunks.ReadAll | writer_text.go:248-293 | reading stops for every source, succeeds exactly on valid text, and then the chunks without repetitions are the source |
| TextImport.Importer.Flush | writer_text.go:130-145 | a successful batch commits its chunks; a failed one may have been applied |
| TextImport.Importer.Add | writer_text.go:170-186 | a chunk joins the batch, which is submitted first if and only if it would exceed the byte limit, and afterwards if and only if it is full |
| TextImport.ImportText | writer_text.go:119-188 | the old chunks go, once, before the first new one comes; however an import ends, the committed chunks are the first of the source and cover its bytes up to the committed end, and without the deletion the old chunks are as they were, unless the deletion itself failed |
| CandidateRanking.OneOrder | vector_usearch_embedded.go:547-552 | there is one way to put hits in the documented order |
| CandidateRanking.ResolveIds | vector_usearch_embedded.go:567-581 | reads exactly the missing identifiers, or fails on one that cannot be read |
| CandidateRanking.SplitByScore | vector_usearch_embedded.go:512-526 | sorting by score alone splits the candidates above, at and below the k-th score |
| CandidateRanking.KthScore | vector_usearch_embedded.go:512-545 | the split's cutoff is the k-th score of the ranking |
| CandidateRanking.TakenFacts | vector_usearch_embedded.go:482-499 | the first k of the ranking are min(k, candidates) hits, in order, and with some others they are all hits, none of which comes before one of them |
| CandidateRanking.MayRankExactly | vector_usearch_embedded.go:482-499 | a candidate may rank if and only if fewer than k candidates score higher |
| Identifiers.LessAtDifference | vector_usearch_embedded.go:547-552 | identifiers compare at their first difference, a prefix first |
| CandidateRanking.RankCandidates | vector_usearch_embedded.go:500-545 | for every k, ties and sort, exactly the first k by score and then identifier; no identifier of a candidate below the k-th score is read, and it fails exactly when one that may rank cannot be read |
| MergePlanning.BuildRoster | index/mergeplan/merge_plan.go:190-200 | the greedy roster from a start |
| MergePlanning.GreedyExactly | index/mergeplan/merge_plan.go:190-200 | a roster takes each segment from its start on exactly when it keeps the total below the limit, and ends only when it is full or at the last segment |
| MergePlanning.GreedyFacts | index/mergeplan/merge_plan.go:190-200 | a greedy roster keeps within width and size and takes each segment once |
| MergePlanning.GreedyWidth | index/mergeplan/merge_plan.go:83-85 | a greedy roster has the number of segments the option names if and only if that many fit the size limit from its start; otherwise it is all that fit |
| MergePlanning.BestRoster | index/mergeplan/merge_plan.go:186-210 | the roster of the lowest score among those that make progress, from the earliest start of equal scores; none if none does |
| MergePlanning.FindEligibles | index/mergeplan/merge_plan.go:232-246 | the small segments, their live size, and the smallest live size |
| MergePlanning.EligiblesExactly | index/mergeplan/merge_plan.go:232-246 | eligible are the segments of a live size below half the size limit, cut toward zero |
| MergePlanning.AllowedExactly | index/mergeplan/merge_plan.go:150-160 | the budget is asked about the live size of the eligible segments and the smallest live size of all, raised to the floor |
| MergePlanning.RemoveSegments | index/mergeplan/merge_plan.go:284-296 | the others, in order |
| MergePlanning.Plan | index/mergeplan/merge_plan.go:139-222 | disjoint tasks of input segments: first all empty ones together, then the best rosters one after the other, each made only over budget and as wide as the option names if and only if that many fit; planning stops within budget, or with nothing left that would make progress |
| MergePlanning.PlanMeans | index/mergeplan/merge_plan.go:139-222 | a plan said of its tasks alone: disjoint, of eligible segments, empty ones or within the limits and with progress; every task with live documents was made over budget; what is left over budget makes no progress from any start |
| MergePlanning.EmptyTaskWidth | index/mergeplan/merge_plan.go:170-179 | the task of empty segments has as many as the input has eligible empty ones |
| MergePlanning.WideTask | index/mergeplan/merge_plan.go:170-179 | twelve empty segments make one task of twelve where the option names ten |
| MergePlanning.NarrowTask | index/mergeplan/merge_plan.go:190-200 | two small segments make one task of two where the option names ten |
| MergeConvergence.ViewIsHonest | index/segment.go:64-81 | sizes by rows or bytes show deletions only where rows are deleted and emptiness only where nothing is live |
| MergeConvergence.TaskShrinks | index/merge.go:109-127 | every task makes the root smaller: fewer segments, or as many with fewer that have deletions |
| MergeConvergence.TaskKeeps | index/merge.go:177-231 | a task keeps the live rows and all segments it does not name, and leaves one segment of its own live rows if it has any |
| MergeConvergence.ExecuteTasks | index/merge.go:160-172 | the tasks of one plan, executed in turn on a changing root, make it smaller, leave the segments of no task as they were, and leave new ones without deletions |
| MergeConvergence.Converge | index/merge.go:109-127 | planning and merging end for every budget and scoring, with the same live rows and a root for which the plan is empty |
| MergeConvergence.NumbersAreAligned | index/merge.go:218-221 | a planned task hands the merger all its segments or none, so tables and segments line up by index |
| PrefixCoding.EncodeTerm | numeric/prefix_coded.go:30-59 | fills a term from its last byte, or refuses a shift above 63 |
| PrefixCoding.TermBytes | numeric/prefix_coded.go:30-59 | the bytes of zero with shift 0 and of 300 with shift 4 |
| PrefixCoding.DecodesBelow63 | numeric/prefix_coded.go:69-92 | a term decodes, to the number with its low bits cleared, if and only if its shift is at most 62 |
| PrefixCoding.Shift63DoesNotDecode | numeric/prefix_coded.go:71-79 | a term of shift 63 that is encoded and not decoded |
| PrefixCoding.OrderOfTerms | numeric/prefix_coded.go:30-59 | for one shift, byte order is signed order of the shifted numbers |
| PrefixCoding.FloatRoundTrip | numeric/float.go:21-34 | the two conversions undo each other |
| PrefixCoding.FloatOrder | numeric/float.go:21-27 | signed order of the converted bits is the order of section 5.10 of IEEE 754-2019 on doubles that are not NaN |
| PrefixCoding.SortKeyOrder | search/source.go:159-169 | comparing score sort keys byte by byte orders the scores |
| DictionaryMerge.TopIsLowest | index/dictionary.go:48-52 | the first cursor of the heap has the lowest term |
| DictionaryMerge.Dictionary.Down | index/dictionary.go:48-65 | sifting down restores the heap below a place and permutes the cursors |
| DictionaryMerge.Dictionary.Pop | index/dictionary.go:60-65 | the first cursor leaves, the others stay a heap |
| DictionaryMerge.Dictionary.TakeTop | index/dictionary.go:73-84 | moving past the lowest entry takes away its term's count in that segment and nothing else |
| DictionaryMerge.Dictionary.Next | index/dictionary.go:67-103 | the lowest term left, with its counts over all segments; the term is then used up and nothing else changes; nothing when no cursor is left |
| DictionaryMerge.All | index/dictionary.go:67-103 | repeated calls give every term of any segment once, strictly ascending, with the sum of its counts, then nothing |
| DictionaryMerge.StartedFacts | index/snapshot.go:103-158 | the cursors of the iterators that have an entry hold all terms and counts |
| FlatCodec.OneOrder | vector_flat.go:395-399 | a set of strings has one sorted order, so iteration order does not reach the file |
| FlatCodec.SortedKeys | vector_flat.go:395-399 | keys collected in any order and sorted |
| FlatCodec.Encode | vector_flat.go:393-449 | the file is a function of the store alone; writing fails exactly on a length beyond 32 bits |
| FlatCodec.FileBytes | vector_flat.go:393-449 | the bytes of a file of one field with two vectors |
| FlatCodec.Decode | vector_flat.go:463-552 | for a file of any content, the store it describes or an error |
| FlatCodec.TextRoundTrip | vector_flat.go:554-571 | a written string is read back if and only if it is within the reader's limit |
| FlatCodec.RecordsRoundTrip | vector_flat.go:519-540 | written records are read back if and only if their identifiers are within the limit |
| FlatCodec.FieldRoundTrip | vector_flat.go:489-547 | a written field is read back if and only if it is within the limits |
| FlatCodec.DecodesExactlyWhenItFits | vector_flat.go:463-571 | decoding what was encoded gives back the vectors, and the specifications of their fields, if and only if every string and dimension is within the reader's limits |
| FlatCodec.WrittenButNotRead | vector_flat.go:554-562 | a store that is written and cannot be read back |

## Left out

- IndexTheorems.RunKeepsInv: is for policies that keep at least one snapshot; for none the counterexample shows it fails. A negative count panics at the first commit and is not modelled.
- RefCounts.ClosedOnceAndLast: is for runs that introduce no abandoned replacement; StepKeepsInvExactly shows that this is exactly when counts stay right. Counters of in-memory segments do nothing and are not listed; the error path of a batch, which counts and releases the same segments, is not a step of its own.
- KeyedVectors.UsearchVectorIndex.ApplyVectorChanges: is for batches whose new ids are no more than the keys left; KeyOf says exactly when a key is given out twice, and what a batch does after that is not stated. Native operations, compaction and writing a field's files are taken to succeed, fields are carried out in any order instead of sorted, and a batch's rows are kept as rows instead of one flat array. The same holds for its PlanPut and ApplyField.
- VectorRevisions.PrepareKeyedGeneration: is for as many new ids as there are keys left, for the reason above.
- PostingsIterators.PostingsIterator.Advance: requires a segment; on a snapshot without segments the source indexes an empty slice.
- TopMatches.RawTopN: keeps the best matches in rank order instead of the array layout of a heap; scores are integers in an abstract order instead of doubles, and cancellation is left out. The same holds for DisjunctionMatches.RawTopNDisjunction, where a term without hits left is marked instead of removed from the slice.
- CandidateRanking.RankCandidates: scores are integers in an abstract order; a NaN score has no counterpart.
- Introducer.Writer.IntroduceMerge: a missing deleted bitmap is the empty set, document numbers are not truncated to 32 bits, and a merge renumbers by concatenating its sources' live documents in order.
- TextImport.ImportText: reading the input cannot fail, sizes of documents are a parameter, and only the chunks of the source itself are in the store.
- MergePlanning.Plan: sizes are unbounded, so sums do not wrap; the built-in budget and scoring functions, which are floating point, are parameters.
- The crash points of the index and of the collection lie between directory operations; torn files, lost sectors, fsync and lock calls are not modelled.
- In the index, a step may happen whenever its guard allows, also in orders the loops' own waiting and pausing would exclude.
- In the collection, one vector space is modelled; several spaces do not share files, only the coordinator. Checksums are contents.
- Reclaiming generations is modelled as steps of a protocol, not as loops, because every iteration is a point where a process may end.
- DictionaryMerge.Dictionary.Next: iterators that report errors are left out, and the heap's pop moves the last cursor to the front and sifts it down in one operation.
- The bytes of snapshot files and of segments, and roaring, vellum and snappy internals.
- Query optimisation by bitmaps, boolean and conjunction searches, offline writing, doc values, analysis, scoring formulas.
- Statistics, events, timers, logging, configuration and JSON.

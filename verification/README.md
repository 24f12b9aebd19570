# Verified model of the insights numeric core

This project models the parts of the insights service that compute with arrays, files and a shared cache, and
proves what their documentation promises of them:

- **Exact all-pairs top-K** (`insights/embeddings/exact_top_k.py`): every float32 bit pattern and packed key, the
  padded merge, the segment pass, and the whole blocked schedule. The schedule is modelled twice: as a state machine
  in which the tasks of a phase read thresholds without a lock, lock, load and store in any interleaving
  (`ExactTopK`), and as loops over the arrays of `TopKState` (`TopKMerge`, `TopKUpdate`, `SerialTopK`). Both publish
  exactly the ranking "score descending, position ascending". Every interleaving ends (`Termination`).
- **The crash-resumable spool** around it (`insights/similar_artists.py`) as a state machine over the cells of its
  files (`SpoolFiles`, `SpoolRun`, `SpoolEnds`), and the independent streaming comparator (`scripts/independent_exact_top_k.py`), shown to give the same rows.
- **FastRP** (`insights/embeddings/fastrp.py`) over the CSR adjacency of `insights/embeddings/graph.py`. Floats are
  bit patterns and their operations arbitrary functions, so equality means the same bits: block width, threads and
  pool order change nothing, and a vector depends only on its neighbourhood. Read as real numbers, under exact
  operations, a vector is the documented sum of unit-length rows (`Normalization`).
- **The style atlas** (`insights/style_atlas.py`): Held-Karp ring order with its ties, pinned ring, sector frames, node
  placement, and the fixed point of laying out unchanged data again. What a layout holds is also stated in terms of the
  data alone (`AtlasNodes`, `AtlasFrames`, `AtlasRing`).
- **Lifecycle stages** (`insights/style_lifecycle.py`): the one-pass loop against the declarative rule, and the rule in
  terms of totals and means alone (`StageRule`).
- **The generation-versioned cache** (`insights/cache.py`) as a protocol between requests, recomputes, expiry and
  other writers.
- **Consent-filtered keyset paging** (`insights/activity.py`).
- **The half-precision vector codec** (`insights/embedding_pipeline.py`, `insights/similar_artists.py`).

Code that works in place is written in place here: `TopKState` and `AdjacencyBuilder` are classes, the scatter, the
propagator, the Held-Karp tables, the release counts and FastRP's output are arrays. Each such method is proved
against a specification function or relation, and the promises are proved about that.

Where the code does less than its surrounding text suggests, the exact condition is stated and proved:

- `_parse_halfvec_block` looks at the concatenation of its blobs, not at where they were cut. `Halfvec.ParsesTo` says
  exactly when a block is accepted, `Halfvec.AcceptedBlobs` when the accepted blobs are the payloads themselves (all
  of one even length), and `Halfvec.WrongCutAccepted` gives an accepted block that is wrongly cut.
- A spool directory that several identities use in turn can be left saying "complete" over missing rows. It is exact
  if and only if no process has died, or is at work, between its first unlink and its metadata write since the
  metadata was last written: `SpoolRun.CompleteExactly`, and operation by operation `SpoolRun.CleaningWindow`. The
  same window can orphan a checkpoint, after which its run can never finish: `SpoolEnds.CompletesExactly`.
- When the generation cannot be read, `get` and `set` fall back to generation 0. Such a request can be served
  something older than the newest bump exactly when a response of that age is in generation 0 or about to be stored
  there (`CacheProtocol.FallbackStaleExactly`), which can come about exactly when the newest bump followed a commit
  (`CacheProtocol.FallbackHistories`).
- That every revival follows a decline of the same inactive stretch depends on the lifecycle parameters:
  `Revivals.DeclineExactly` gives the rules under which it holds, the shipped one among them, and
  `Revivals.RiseExactly` those under which a revival is a rise.
- FastRP's two paths multiply in opposite orders. Whatever the other operations are, embedding picked rows equals
  picking from the embedding of all on all inputs if and only if multiplication commutes (`FastRP.SelectingExactly`).

Scores are the ordinals of float32 numbers (`Float32.OrdinalOrdersValues` ties ordinals to the numbers the bit
patterns of section 3.4 of IEEE 754-2019 encode), so -0.0 and 0.0 are the same score.

## Model

| member | source | states |
|---|---|---|
| Float32.OrdinalOrdersValues | insights/embeddings/exact_top_k.py:99-107 | For any two bit patterns that are read as numbers, sign-magnitude ordinals compare exactly as the numbers do, both zeros equal |
| Float32.RankKeyEmbedsOrder | insights/embeddings/exact_top_k.py:99-107 | The packed 64-bit key of `_rank_keys` is an exact order embedding: smaller key iff higher score, or equal score and lower position, for all non-NaN scores and 32-bit positions; it never overflows int64 |
| TopKMerge.KeyBeforeIsRankKey | insights/embeddings/exact_top_k.py:99-107 | The key order used by the merge is the order of the packed keys |
| Ranking.TopSize | insights/embeddings/exact_top_k.py:196-206 | The best k of a set, "fewer than k ahead", really are min(k, size) many |
| Ranking.Sandwich | insights/embeddings/exact_top_k.py:143-193 | Any candidate set between the best k and everything has the same best k, so dropping others is harmless |
| Ranking.MergeLaw | insights/embeddings/exact_top_k.py:117-140 | Merging new candidates into a running best k gives the best k of everything seen |
| Ranking.RankingUnique | insights/embeddings/exact_top_k.py:110-114 | A set has exactly one ranking by score descending, position ascending |
| TopKMerge.TopKState.constructor | insights/embeddings/exact_top_k.py:66-83 | An empty state lists nothing in every row and has every threshold at the floor |
| TopKMerge.TopKState.Merge | insights/embeddings/exact_top_k.py:117-140 | Each touched row becomes a best k, in any slot order, of its old slots, its own candidates and padding, with its threshold; no other row changes |
| TopKMerge.MergeKeepsTop | insights/embeddings/exact_top_k.py:117-140 | Such a merge of a row listing S with candidates A leaves a row listing the best k of S and A, each entry once, unfilled slots after |
| TopKMerge.ThresholdIsKthBest | insights/embeddings/exact_top_k.py:66-83 | The threshold is the k-th best known score, and the floor while fewer than k are known |
| TopKMerge.PublishedUnique | insights/embeddings/exact_top_k.py:110-114 | A published row is determined slot by slot, (-inf, -1) included, by the set it ranks |
| TopKMerge.SortedListPublishes | insights/embeddings/exact_top_k.py:110-114 | Sorting a row's slots publishes its set in rank order with the unfilled slots last |
| TopKSelect.AdmitKeepsTop | insights/embeddings/exact_top_k.py:161-183 | Candidates dropped against a threshold read at any earlier moment, or by the first-sight cut, are outside the best k of everything seen and new |
| TopKSelect.PrunedHits | insights/embeddings/exact_top_k.py:177-183 | A segment whose maximum misses the threshold holds no candidate |
| TopKSelect.SegmentAt | insights/embeddings/exact_top_k.py:177-183 | `segment * width + offset` inverts the reshape |
| TopKSelect.SegmentHitsAreHits | insights/embeddings/exact_top_k.py:177-183 | The segment pass lists exactly what a flat scan lists, in order: nothing lost, nothing twice |
| TopKSelect.KthLargestCuts | insights/embeddings/exact_top_k.py:161-176 | The first-sight cut keeps a score iff fewer than the cut beat it |
| TopKSelect.ColumnViewIsSegments | insights/embeddings/exact_top_k.py:241-250 | The transposed three-axis view of a column is the reshape of that column in runs of 16 |
| TopKSelect.RowOfBlock | insights/embeddings/exact_top_k.py:225-240 | A row of a task's block holds exactly the row's entries from the column block; padding and the row itself hold -inf |
| TopKSelect.ColumnOfBlock | insights/embeddings/exact_top_k.py:241-250 | By symmetry a column of the block, read as a row, holds the column's entries from the row block |
| TopKSelect.RowUpdateSelects | insights/embeddings/exact_top_k.py:241-245 | The row update's candidates are exactly the admitted entries, in runs of 64 |
| TopKSelect.ColumnUpdateSelects | insights/embeddings/exact_top_k.py:246-250 | The column update's candidates are exactly the admitted entries, in runs of 16 |
| ExactTopK.RunKeeps | insights/embeddings/exact_top_k.py:232-262 | The invariant (lists exact for the blocks folded in, thresholds justified, locks exclusive) holds in every state of every interleaving |
| ExactTopK.StoredRow | insights/embeddings/exact_top_k.py:117-193 | A store under the lock folds in a block that row had not seen and loses nothing of value, whatever was read before |
| ExactTopK.LockExcludes | insights/embeddings/exact_top_k.py:143-193 | While a row is being stored no other task has it loaded |
| ExactTopK.ListJustified | insights/embeddings/exact_top_k.py:117-193 | A threshold that goes with a list is justified by what the list was merged from: the floor, or reached by k of it |
| ExactTopK.ThresholdsRise | insights/embeddings/exact_top_k.py:117-193 | No step lowers a row's threshold |
| ExactTopK.Progress | insights/embeddings/exact_top_k.py:232-262 | No interleaving gets stuck before the last block is published |
| Termination.StepLess | insights/embeddings/exact_top_k.py:232-262 | Every step of every interleaving lowers a measure over phases, tasks, reads, loads and stores |
| Termination.RunsEnd | insights/embeddings/exact_top_k.py:196-262 | Every run is finite, bounded by that measure; it cannot go on if and only if the last phase is over, and then every row is published exactly |
| Termination.PhaseEnds | insights/embeddings/exact_top_k.py:252-262 | From every reachable state some run leads to the end of the phase |
| ExactTopK.FinalList | insights/embeddings/exact_top_k.py:252-262 | When a phase's tasks are done the lists of its block are final |
| ExactTopK.ExactAllPairs | insights/embeddings/exact_top_k.py:196-262 | Whatever the interleaving, n, k and block size, a finished run has published for every row the first min(k, n-1) other rows in rank order, then (-inf, -1) |
| ExactLists.ExactlyRanked | insights/embeddings/exact_top_k.py:196-206 | A list is a row's exact one if and only if: its first min(k, n-1) slots hold other rows with their scores, by score descending and position ascending, everyone left out comes after them all, and the other slots hold (-inf, -1) |
| ExactLists.RunPublishesRanked | insights/embeddings/exact_top_k.py:196-262 | So reads every row a finished run published, whatever the interleaving |
| ExactTopK.PublishedAgree | insights/embeddings/exact_top_k.py:196-262 | What is published depends neither on the interleaving nor on the block a run was resumed at |
| ExactTopK.SavedEnterable | insights/embeddings/exact_top_k.py:206-218 | Lists and thresholds saved between phases may be resumed from |
| TopKUpdate.SelectCandidates | insights/embeddings/exact_top_k.py:155-185 | The two passes together give each row exactly the entries of its chosen columns, and rows beyond the valid ones nothing |
| TopKUpdate.Group | insights/embeddings/exact_top_k.py:186-190 | Grouping sorted rows: each distinct row once, ascending, and each item led to its own row |
| TopKUpdate.RowGiven | insights/embeddings/exact_top_k.py:184-193 | After the stable sort and the grouping each row is merged with exactly its own items, and rows without items are left alone |
| TopKUpdate.Update | insights/embeddings/exact_top_k.py:143-193 | `_update`: every valid row is merged with what it chose against the thresholds as read; no other row's list or threshold changes |
| SerialTopK.SelectedAscend | insights/embeddings/exact_top_k.py:155-185 | A row's chosen columns come out in ascending order, each once |
| SerialTopK.RowViewPasses | insights/embeddings/exact_top_k.py:241-245 | The row view hands the merge exactly the row's admitted entries, as a multiset |
| SerialTopK.TransposedPasses | insights/embeddings/exact_top_k.py:246-250 | The transposed view hands the merge exactly the column's admitted entries, as a multiset |
| SerialTopK.RowHalf | insights/embeddings/exact_top_k.py:232-256 | The upper block triangle gives each row each block exactly once: what a row has seen before and after a task's two updates, and that the block is new to it |
| SerialTopK.GivenRow | insights/embeddings/exact_top_k.py:143-193 | After a block was given to block b, rows of b list the best k of one block more, all others are as they were |
| SerialTopK.PhaseExact | insights/embeddings/exact_top_k.py:252-256 | The tasks of phase i bring every row from the blocks seen before the phase to those seen after it |
| SerialTopK.BlockIsFinal | insights/embeddings/exact_top_k.py:257-260 | At the end of a phase sorting the lists of its block publishes each row's exact list |
| SerialTopK.RunBlocks | insights/embeddings/exact_top_k.py:252-262 | The loops over phases, tasks and rows take exactly the steps of the schedule on the arrays |
| SerialTopK.RunIsExact | insights/embeddings/exact_top_k.py:196-262 | Those steps, from lists that may be entered at a block, publish exactly the rows from there on, each exact |
| SerialTopK.RunAll | insights/embeddings/exact_top_k.py:196-262 | Run from empty arrays: block sizes that are no multiple of 64 are refused, else exactly the rows 0 to n-1 are published, each exact |
| SerialTopK.ResumeAt | insights/embeddings/exact_top_k.py:206-218 | Resumed from saved arrays: exactly the remaining rows are published, each exact, and the final arrays may be entered again |
| SpoolRun.PhaseRunExact | insights/similar_artists.py:246-275 | A phase computed from a resumable state publishes its block exactly and leaves a state the next block may resume from |
| SpoolFiles.WriteInBlock | insights/similar_artists.py:200-205 | Seeking to `start_row * row_bytes` and writing a block keeps the file's size and touches none but the block's cells |
| SpoolFiles.RowPlaced | insights/similar_artists.py:200-205 | It puts each of the block's rows where that row is read back from |
| SpoolFiles.TornElsewhere | insights/similar_artists.py:200-205 | A write cut short, with anything left in the cells to be written, leaves every row of every other block as it was |
| SpoolFiles.ExactFileUnique | insights/similar_artists.py:208-288 | There is one exact file: two files whose rows are all final are equal cell by cell |
| SpoolFiles.UnusableNotExact | insights/similar_artists.py:243-246 | A missing positions file, or one just created by truncation, of whatever size, is never exact for a catalog that is not empty |
| SpoolRun.HistoryKeeps | insights/similar_artists.py:208-288 | In every state of every history of runs, crashes and restarts, under any identities in turn: x's checkpoint at block b means that its rows below b are final on disk and the saved state may enter b, unless its files were being removed |
| SpoolRun.CompleteExactly | insights/similar_artists.py:229-282 | For any identities in turn and any crashes: a spool whose metadata says complete is exact if and only if, since the metadata was last written, no process died between its first unlink and its metadata write, and none is at work there |
| SpoolRun.CompleteMeansExact | insights/similar_artists.py:208-288 | Under one identity, from an empty directory or another run's leftovers, over any crashes and restarts: when the metadata says complete, every row on disk is the exact list |
| SpoolCells.ExactlyRows | insights/similar_artists.py:254-256 | A spool is exact if and only if both files have full size and each row's cells are the exact row's positions and scores |
| SpoolCells.CompleteCells | insights/similar_artists.py:208-280 | Under one identity, over any crashes and restarts, once the metadata says complete: cells r*k to r*k+k of the positions file hold row r's neighbours in rank order and the same cells of the scores file their scores, then -1 and -inf |
| SpoolCells.CompleteStays | insights/similar_artists.py:232-234 | A complete spool is left as it is, however often its identity is started again |
| SpoolRun.SameSpool | insights/similar_artists.py:208-288 | Any two histories under one identity that completed, one of them perhaps uninterrupted, left the same two files |
| SpoolRun.CleaningWindow | insights/similar_artists.py:240-248 | After k of the six operations by which another identity begins afresh, the metadata makes no false claim if and only if k is 0 or 6 |
| SpoolCells.FalseClaimReached | insights/similar_artists.py:240-248 | Some history reaches the false claim: another identity's process that dies after any of its first five operations leaves an exact spool saying complete while it is not |
| SpoolEnds.CompletesExactly | insights/similar_artists.py:226-283 | In every state of every history: x's runs, left alone, can complete the spool if and only if x's checkpoint does not lead into a missing positions file |
| SpoolEnds.OwnRunsComplete | insights/similar_artists.py:208-288 | Under one identity, after any crashes, a restart that is left alone can complete the spool |
| IndependentTopK.SelectRanksTop | scripts/independent_exact_top_k.py:12-20 | `_select` returns the ranking of the best k of its candidates, boundary ties by position |
| IndependentTopK.FoldRanksTop | scripts/independent_exact_top_k.py:40-58 | The top k of a merge of chunk top-ks is the top k of the whole |
| IndependentTopK.RankAll | scripts/independent_exact_top_k.py:36-59 | Batch after batch, each query's row is the ranking of its k best candidates |
| IndependentTopK.IndependentTopK | scripts/independent_exact_top_k.py:23-60 | For every batch and chunk size each query gets the ranking of its k best candidates, all k of them; bad arguments and queries outside the catalog are refused |
| IndependentTopK.AgreesWithExact | scripts/independent_exact_top_k.py:1-10 | The comparator's row is the published row |
| Scatter.SlotFresh | insights/embeddings/graph.py:166-176 | Every write lands inside its own row's window, in a slot no other entry takes |
| Scatter.RankIsCount | insights/embeddings/graph.py:166-176 | In stable order the rank within a run is the number of earlier entries of that row |
| Scatter.ScatterBlock | insights/embeddings/graph.py:166-176 | `_scatter` puts each row's columns in order into its window, moves each cursor past it, and touches nothing else |
| Graph.NodeIndexIs | insights/embeddings/graph.py:61-85 | A node set is accepted iff it fits int32 and has no duplicate, and is then held in ascending order |
| Graph.PositionsAre | insights/embeddings/graph.py:61-85 | Positions are returned iff every key is a node, and each is where its key stands |
| Graph.ScatteredAre | insights/embeddings/graph.py:131-150 | What is scattered into row v is exactly the other ends of its edges |
| Graph.CountEntries | insights/embeddings/graph.py:131-142 | The counted entries of a row are as many as will be scattered into it |
| Graph.RunningPointers | insights/embeddings/graph.py:131-142 | The running sums are row pointers whose differences are the counts |
| Adjacency.AdjacencyBuilder.constructor | insights/embeddings/graph.py:106-113 | A new builder holds no edge and is not built |
| Adjacency.AdjacencyBuilder.AddEdgePositions | insights/embeddings/graph.py:118-129 | Adds exactly the given edges, both directions, loops dropped; refused calls add nothing, each for its own reason |
| Adjacency.AdjacencyBuilder.AddEdges | insights/embeddings/graph.py:114-116 | The same by key; an unknown key adds nothing |
| Adjacency.AdjacencyBuilder.ScatterBlocks | insights/embeddings/graph.py:144-150 | Popping and scattering the blocks leaves in each row's slice the other ends of its edges, in order |
| Adjacency.Assemble | insights/embeddings/graph.py:151-163 | Rows are sorted and collapsed, degree is row length, every entry of row v is 1/degree(v) |
| Adjacency.AdjacencyBuilder.Build | insights/embeddings/graph.py:131-163 | Builds the transition matrix of exactly the edges added: rows strictly increasing and duplicate-free, u in row v iff joined; a second call fails |
| Adjacency.MatrixIs | insights/embeddings/graph.py:131-163 | Entry by entry: between v's pointers stand the nodes v is joined to in either direction, each once and ascending; every entry is the rounded reciprocal of how many they are |
| Adjacency.RowsMirror | insights/embeddings/graph.py:131-163 | u is in row v iff v is in row u, and no row holds itself |
| Adjacency.OneMatrixPerGraph | insights/embeddings/graph.py:9-13 | The matrix is the same however the edges were ordered, repeated, directed or cut into blocks |
| Propagator.BoundsRise | insights/embeddings/fastrp.py:228-234 | The slice bounds found by searching the row pointers rise from the first row to the last |
| Propagator.MakeParts | insights/embeddings/fastrp.py:222-244 | The slices partition the rows, for every thread count, empty ones skipped |
| Propagator.DotOfSlice | insights/embeddings/fastrp.py:237-243 | A row's sum in its slice adds the same products in the same order as in the whole matrix |
| Propagator.RunTasks | insights/embeddings/fastrp.py:249-257 | The tasks, run in any order, together write the whole product |
| Propagator.Propagate | insights/embeddings/fastrp.py:246-257 | With or without a pool the result is the matrix applied to every column |
| FastRP.Project | insights/embeddings/fastrp.py:260-279 | The projected block is the same whole or in row slices |
| FastRP.AccumulateSquares | insights/embeddings/fastrp.py:282-286 | Squares are added column by column, so the sums of consecutive blocks continue each other |
| FastRP.SumBlock | insights/embeddings/fastrp.py:168-188 | A block of the first pass brings every weighted power's sums, and the self term's, from its first column to its last |
| FastRP.EmbedBlock | insights/embeddings/fastrp.py:189-215 | A block of the second pass holds each column's weighted sum over all powers, scaled by whole-row norms, one block or many |
| FastRP.FastRP | insights/embeddings/fastrp.py:108-216 | For every block width, thread count and pool order, output row i is the embedding of the i-th row asked for, a negative position counting from the end; block or thread counts below 1 and rows outside the graph are refused |
| Normalization.NormalizedSum | insights/embeddings/fastrp.py:3-9 | Read as real numbers in any way in which every operation is exact, entry j of row v is the sum over the weights of w_k times entry j of row v of the projection after k+1 applications of the matrix, over that row's length, plus self_weight times the unpropagated entry over its row's length; a zero row counts as length one |
| Normalization.UnitRow | insights/embeddings/fastrp.py:289-292 | So with one weight w that is not zero every row has squared length w*w over all its columns, or is zero where the propagated row is |
| FastRP.SelectingRows | insights/embeddings/fastrp.py:199-213 | Embedding picked rows is picking from the embedding of all, in every arithmetic whose multiplication commutes |
| FastRP.OrderMatters | insights/embeddings/fastrp.py:199-213 | In an arithmetic whose multiplication does not commute the two paths give different entries for one node |
| FastRP.SelectingExactly | insights/embeddings/fastrp.py:199-213 | For every multiplication: picked rows and picking from all rows agree on all inputs, whatever the other operations, if and only if the multiplication commutes |
| Locality.RowByKeys | insights/embeddings/graph.py:9-13 | A row read by keys lists the joined keys in ascending key order |
| Locality.SameRows | insights/embeddings/graph.py:9-13 | A vertex with the same edges in two graphs has the same row by keys, whatever else came, went or shifted |
| Locality.PowerAgrees | insights/embeddings/fastrp.py:32-41 | Powers of the projection agree at a vertex undisturbed within one hop less |
| Locality.VectorKept | insights/embeddings/fastrp.py:32-41 | If no edge at a vertex within len(weights)-1 hops was added or removed its vector is bit for bit the same, floats uninterpreted |
| RingOrder.BestBounds | insights/style_atlas.py:131-177 | No path over a subset beats the Held-Karp recurrence |
| RingOrder.TraceAchieves | insights/style_atlas.py:131-177 | Reading back `previous` gives a path over the subset of exactly the recurrence's weight |
| RingOrder.TraceIsOptimal | insights/style_atlas.py:131-177 | The ring read back from the best end is a ring from genre 0 and no ring weighs more |
| RingOrder.Choose | insights/style_atlas.py:145-165 | One table entry: the recurrence's value and its first predecessor, from the previous layer's row |
| RingOrder.ReadPath | insights/style_atlas.py:166-173 | The backtracking loop over `previous` reads back the recurrence's path |
| RingOrder.SmallRings | insights/style_atlas.py:138-144 | Over at most three genres every ring weighs the same |
| RingOrder.TheRingIsHeaviest | insights/style_atlas.py:131-177 | The ring chosen weighs at least as much as every Hamiltonian cycle, starts at 0 and has order[1] < order[-1] |
| RingTies.TheRingTies | insights/style_atlas.py:131-177 | Ties: before it is turned, the ring has the smallest last genre of all heaviest rings from genre 0, and at each step the smallest predecessor of all paths as heavy to the same genre through the same genres |
| RingOrder.RingOrder | insights/style_atlas.py:131-177 | The table loops and the backtrack return that ring; refused exactly above 20 genres |
| Rings.TurnRing | insights/style_atlas.py:173-177 | Turning the ring round keeps its start, its members and, for symmetric weights, its weight |
| PinnedRing.InsertRaises | insights/style_atlas.py:180-195 | An insertion raises the ring's weight by exactly its gain |
| PinnedRing.InsertIsBest | insights/style_atlas.py:180-195 | No other slot gives a heavier ring, and no earlier slot as heavy a one |
| PinnedRing.ResultIs | insights/style_atlas.py:180-195 | The result holds exactly the current genres, keeps the survivors' order and the first survivor's place, and is the pinned ring when the genre set is unchanged |
| PinnedRing.ResultGrows | insights/style_atlas.py:188-194 | The result grows from the pinned genres still there, in their order, by the new ones in name order, each put in where no other place gives a heavier ring and no earlier one as heavy a ring, never first |
| PinnedRing.PinnedRing | insights/style_atlas.py:180-195 | The filter-and-insert loop computes that result |
| AtlasLayout.AffinitySymmetric | insights/style_atlas.py:117-128 | The affinity of two genres is the same either way round, as the ring algorithms need |
| AtlasFrames.AffinityOfStyle | insights/style_atlas.py:117-128 | It is the sum over styles, wherever each stands in the table, of the smaller of its two listed shares, none on the diagonal |
| AtlasLayout.WidthsShareTheTurn | insights/style_atlas.py:201-204 | Square-root widths are positive and sum to the full turn |
| AtlasLayout.SectorFrames | insights/style_atlas.py:214-236 | The loop lays out the frames, or keeps the pinned ones, exactly under the four stated conditions |
| AtlasLayout.FramesSound | insights/style_atlas.py:207-236 | In all cases frames abut around a full turn (to the code's epsilon when kept), are not empty, and lie within a tenth of their square-root widths |
| AtlasLayout.FramesFixed | insights/style_atlas.py:214-236 | Pinning the resulting sectors keeps their frames unchanged |
| AtlasFrames.FramesPinnedExactly | insights/style_atlas.py:221-230 | A layout keeps the pinned frames if and only if the pinned sectors in ring order are the ring's, abut around the turn to the code's epsilon, and each lies within a tenth of its share of the turn by the root of its node count plus one |
| AtlasFrames.KeptFrames | insights/style_atlas.py:221-230 | Kept, each sector has the pinned start and end of its genre |
| AtlasFrames.FreshFrames | insights/style_atlas.py:231-236 | Otherwise the sectors follow each other, each as wide as that share, from the start pinned for the first genre, or from zero |
| AtlasLayout.RanksAre | insights/style_atlas.py:251-257 | A key's rank is the middle of the slot given by how many keys come before it, strictly inside (0, 1) |
| AtlasLayout.RanksInOrder | insights/style_atlas.py:251-257 | Filling the slots in sorted order computes those ranks |
| AtlasLayout.MembersCount | insights/style_atlas.py:286-289 | The running member count of a genre is the number of nodes drawn in its sector |
| AtlasLayout.SectorNodesInside | insights/style_atlas.py:290-306 | Every node lies strictly within the middle 80% of its sector, at radius 0.35 to 0.95, and carries its row's style, kind and genre |
| AtlasLayout.LayoutPlacesNodes | insights/style_atlas.py:260-319 | A layout draws every parent row, no more nodes than rows, and each strictly inside the sector of its genre |
| AtlasNodes.LeanOrder | insights/style_atlas.py:297-303 | In every layout: of two nodes of different styles in a sector the smaller angle goes to the smaller share of the next sector's genre less that of the previous one's, then to the smaller name |
| AtlasNodes.AgeOrder | insights/style_atlas.py:301-304 | Of two such nodes the smaller radius goes to the earlier emergence, undated styles after all dated ones, ties by name |
| AtlasNodes.EvenSlots | insights/style_atlas.py:251-257 | With n nodes in its sector and i before it, a node stands at the middle of the i-th of n equal slots of the middle 80% of the angle, and likewise of the radii 0.35 to 0.95 |
| AtlasNodes.NodesInOrder | insights/style_atlas.py:318 | All nodes come ghosts first, then by style, then by genre |
| AtlasRing.FreshRing | insights/style_atlas.py:279-284 | With nothing pinned the ring goes around the genres that have a share or a node, starts at the first by name, runs toward its smaller neighbour, and none around them has more affinity |
| AtlasLayout.LayoutFixed | insights/style_atlas.py:260-319 | Laying out unchanged data with the resulting sectors pinned gives the same ring, sectors and nodes, and keeps both |
| AtlasLayout.BuildLayout | insights/style_atlas.py:260-319 | The loops build such a layout; refused exactly when nothing is pinned and there are more than 20 genres |
| Lifecycle.TrailingMean | insights/style_lifecycle.py:101-108 | Differences of running sums give the mean over the window ending at each year |
| Lifecycle.EmergenceIndex | insights/style_lifecycle.py:111-118 | Finds the first year whose total so far reaches the threshold, or one past the last |
| Lifecycle.RowStages | insights/style_lifecycle.py:121-141 | The loop with its running trough gives every year the stage of the declarative rule |
| Lifecycle.Stages | insights/style_lifecycle.py:121-141 | The same for every row on its own |
| StageRule.AbsentExactly | insights/style_lifecycle.py:9-19 | By running totals alone: a year is absent iff no year up to it has a total that reaches the threshold |
| StageRule.StagesExactly | insights/style_lifecycle.py:9-19 | By running totals and trailing means alone, from the first year z whose total reaches the threshold: emerging and established iff the mean is at least the share of the largest so far, split at y - z = establish_years; reviving iff it is not, but is at least the ratio of the least since the last active year and the floor of the largest; declining otherwise |
| Lifecycle.Causal | insights/style_lifecycle.py:3-5 | Later years never change an earlier stage |
| Lifecycle.AbsentUntilEmergence | insights/style_lifecycle.py:9-19 | Absent iff no year so far has brought the total to the threshold |
| Lifecycle.NoSecondEmergence | insights/style_lifecycle.py:9-19 | After established a style is never emerging or absent again |
| Revivals.StretchStartsDeclining | insights/style_lifecycle.py:9-19 | Where a mean below the active share cannot revive from itself, the first inactive year of every stretch is declining |
| Revivals.DeclineExactly | insights/style_lifecycle.py:9-19 | For all yearly counts every reviving year has a declining year earlier in the same inactive stretch, if and only if the parameters do not let a mean below the active share revive from itself |
| Revivals.RiseExactly | insights/style_lifecycle.py:9-19 | For all yearly counts every reviving year rises by the ratio over an earlier mean of its stretch, if and only if moreover the revive floor is positive, or nothing is ever inactive |
| Lifecycle.CountReleases | insights/style_lifecycle.py:183-197 | The counts are the releases per style and year up to the last complete year, styles in order, years without a gap |
| Lifecycle.TallyOfRow | insights/style_lifecycle.py:195-196 | A count is the sum of the releases of the style's rows of that year: each row, wherever it stands, adds its own and no other does |
| CacheKeys.VersionedKeyInjective | insights/cache.py:81-89 | Keys of different generations never meet, nor do different keys of one generation |
| CacheKeys.VersionedKeyIs | insights/cache.py:81-89 | With or without its old prefix a key goes to the same place: service prefix, `insights:g`, the generation in decimal, a colon, the rest |
| CacheKeys.SweepSparesOwn | insights/cache.py:143-177 | The sweep deletes a versioned key iff its generation is not the one just created |
| CacheKeys.SweptShape | insights/cache.py:214-216 | Whatever the sweep deletes has the cache's own key shape; never the counter or another service's key |
| CacheKeys.ColonNeeded | insights/cache.py:160-170 | Without the colon that ends the namespace, generation 5 would also spare generation 55 |
| CacheProtocol.RunKeeps | insights/cache.py:81-177 | In every interleaving each stored entry of a generation answers from a commit no older than that generation's bump |
| CacheProtocol.ServedReflectsBump | insights/insights.py:266-297 | A served value was computed from a commit at or after the bump that created the generation its request read |
| CacheProtocol.AnsweredSinceNewest | insights/insights.py:266-297 | A request that reads the generation now is answered, in every continuation of the run, from a commit no older than the newest bump there is now |
| CacheProtocol.SweepLeaves | insights/cache.py:143-177 | A sweep's deletion leaves every entry of its own generation and every key of another shape |
| CacheProtocol.FallbackStaleExactly | insights/cache.py:91-107 | In every reachable state: a request that cannot read the generation can be served something older than the newest bump if and only if such a response of generation 0 is in the cache, or loaded and about to be stored there |
| CacheProtocol.FallbackHistories | insights/cache.py:91-107 | For every history of bumps that can occur and every key: that can come about if and only if the newest bump followed a commit |
| CacheProtocol.InvalidateAll | insights/cache.py:143-177 | If the INCR fails nothing changes; else the counter rises by one and exactly the scanned stale keys are gone |
| Activity.PurposesChecked | insights/activity.py:95-117 | Purposes are accepted iff there is one and all are published, and are then exactly the ones given |
| Activity.EligibleForAll | insights/activity.py:162-178 | Exactly the subjects granted every purpose, within the caller's own |
| Activity.ConsentedExactly | insights/activity.py:76-83 | A row is consented iff it lies in the half-open window, is of a kind and subject asked for, and for every purpose carries it in its snapshot and has a user with a grant that is unrevoked and in effect |
| Activity.NothingWithoutGrant | insights/activity.py:70-83 | Nothing is read of a subject all of whose grants of some purpose are revoked or yet to take effect |
| Activity.MatchingIs | insights/activity.py:194-208 | The matching rows after a key, each once, strictly ascending in (occurred_at, id) |
| Activity.ResumesAfter | insights/activity.py:194-255 | Resuming after the i-th matching row gives exactly the rows that follow it |
| Activity.KeysetPages | insights/activity.py:211-255 | The paging loop ends and yields every admitted row exactly once in key order |
| Activity.PagesNeverRepeat | insights/activity.py:211-255 | With rows inserted or removed between pages the pages still ascend strictly, so none repeats, and each row comes from the table its page was read from |
| Activity.Read | insights/activity.py:312-368 | Errors for bad purposes and windows; otherwise exactly the rows in the window that carry every purpose in their snapshot and whose subject is granted all of them and asked for |
| Halfvec.BinaryRows | insights/embedding_pipeline.py:453-468 | One buffer filled and cut into rows gives each vector's payload |
| Halfvec.WireBytes | insights/embedding_pipeline.py:453-468 | The bytes of a payload, most significant first: the dimensions, two zero bytes, and each half-precision word |
| Halfvec.RoundTrip | insights/similar_artists.py:424-438 | Decoding undoes encoding bit for bit for every row count from 1 and dimension from 1 to 65535 |
| Halfvec.WellFormedBlock | insights/similar_artists.py:424-438 | On individually well-formed payloads the parser accepts iff all dimensions are equal and not zero, and returns their vectors |
| Halfvec.ParsesTo | insights/similar_artists.py:424-438 | For any blobs: accepted as these vectors iff the concatenated bytes are those of that many payloads of the first blob's dimensions; an empty block raises IndexError |
| Halfvec.AcceptedBlobs | insights/similar_artists.py:424-438 | Accepted blobs are the payloads themselves iff all have the first one's, even, length |
| Halfvec.WrongCutAccepted | insights/similar_artists.py:424-438 | Two one-dimensional payloads cut into seven and five bytes are accepted although neither piece is a payload |

## Left out

- Floating-point rounding, BLAS, SciPy and NumPy kernels: top-K scores are an arbitrary symmetric function into finite float32 ordinals, FastRP operations are arbitrary functions of bit patterns, atlas and lifecycle arithmetic is over the reals.
- Scores that are NaN or infinite: `reciprocal_norms` and the matrix product that gives the scores are not part of this model.
- `HashedProjection`, `splitmix64` and `node_key`: the projection is an arbitrary function of a node's position (of its key, for locality) and the column; keys are numbers, and that BLAKE2b does not collide is assumed.
- Concurrency inside NumPy calls: a load or store of one row's slots is one step; thresholds are read row by row without the lock.
- FastRP.SelectingRows: asks that multiplication commutes, which IEEE 754 multiplication of numbers does; FastRP.SelectingExactly ranges over the other operations, because in one fixed arithmetic rounding can hide a difference.
- FastRP.FastRP: norms and scales are values here, not arrays.
- Normalization.NormalizedSum: stated where every operation is exact, so it says nothing of rounding; given a square root of the reals there is such an arithmetic (ExactReadings.ExactExists).
- StageRule.StagesExactly: any totals and means that add up will do; there are such (StageRule.MeansExist).
- AtlasNodes.LeanOrder: shares are dictionaries (no style twice, no genre twice under one), as the function's argument is.
- Locality.VectorKept: stated for beta = 0, where the projection does not read degrees.
- SciPy's `sort_indices` and `sum_duplicates`: Adjacency.SumDuplicates sorts and collapses each row as a value; the int32 or int64 choice of index width is left out.
- SpoolRun.CompleteMeansExact: an identity is taken to settle the scores; the source's identity holds the model version, the sizes, k and the block size, but not the vectors. One process at a time is at work in a directory; a rename is atomic and what was written before it is on disk. Memory guards, `Spool.read`, `_copy_rows`, publishing and rotation are left out; they rest on PostgreSQL and helper contracts that are not part of this model.
- Square root and the full turn are parameters of the layout, constrained only by their signs; sine and cosine are left out, so nodes are stated in polar coordinates and a sector's own label position is not modelled.
- Genre and style names are their ranks in name order; share tables are lists of pairs; the affinity of two genres is a sum over the reals.
- `hull_check` and `movement`: geometry libraries.
- Revivals.DeclineExactly: yearly counts are not negative, as releases are.
- CacheProtocol.ServedReflectsBump: the generation counter is never lost or lowered; values and requests are abstract; expiry may remove any entry at any time. Telemetry and `purge_legacy_keys` are left out.
- CacheKeys.VersionedKeyInjective: the key builder of `common.config` is not part of this model; it is taken to join its parts with ":" under the service's prefix, and digits are the ASCII ones.
- Activity.Read: purposes, subjects, users and event types are numbers; each purpose's statement may see its own state of the consent tables. Cursor text, SQL text and the impression columns are left out; `read_impressions` has the same filter and paging.
- PostgreSQL, Valkey, COPY, HTTP fetching, FastAPI handlers, configuration, telemetry, container control and measurement scripts: plumbing around the modelled code.

# Verified model of Jev Bush

Jev Bush is an inference engine whose promise is exactness: every fast path gives the result of a slow, obvious form.
This project states those promises in Dafny and proves them on models of the program's own loops, arrays and objects.

- **Byte-pair encoding** (`Bpe*.dfy`): a heap with lazily invalidated candidates over a linked list of ids picks the
  pair a full rescan would pick, every time; the ids it starts from, read back, say the text.
- **The engine** (`Transformer`, `Segments`, `Attention`, `Layer`, `Engine`, `Passes`, `Prefix`, `Reads`, `Rounds`,
  `Microbatch`, `TopK`, `Experts`, `Routing`, `RouterWeights`): floats are an opaque type and all arithmetic is
  arbitrary functions, so that equality means the same operations on the same operands in the same order. The prefix
  cache, batching, padding, shared reads, the rounds of a microbatch, the choice of running one, and expert grouping
  are each proved invisible. Layer count, window and head counts are parameters. `AttentionMeaning` and `PassMeaning`
  say what is computed apart from the functions the loops are proved against: which positions a token sees, the
  weighted mean over exact arithmetic, and a pass written out layer by layer.
- **Error frames and allocation** (`Frames`, `FrameRuns`, `FrameLaws`, `Allocations`): a step model of nested frames,
  tracked blocks and cleanups, conservation over every run, and the doubly linked list program that takes those steps.
- **Arena plans** (`Arena`, `ForwardPlan`, `ForwardTrace`, `StoragePlans`, `PlanTotals`): the planned size equals the
  peak of the allocations that a pass, a request's K/V and a microbatch make, with the program's constants.
- **JSON** (`Utf8`, `JsonStrings`, `JsonOrder`, `JsonParse`, `JsonNumber`, `JsonLookup`, `JsonPrint`, `JsonWriter`):
  the flat token array is a tree's preorder, scans over it compute what the tree says, strings survive escaping, and
  canonical printing is a fixed point. `JsonEscapes`, `JsonGrammar`, `JsonSense` and `JsonNeat` say apart from the
  program which texts spell a string or a document, what they mean, and in what form one is printed.
- **Models, sessions and calls** (`Lifecycle`, `LifecycleCalls`, `Sessions`, `SessionStorage`): interleaved atomic
  steps of all calls, one session's flags, poisoning and prefix over failing calls, and the memory it owns across
  abandoned frames.
- **Numeric cores** (`Floats`, `RowLanes`, `LanesBf16`, `LanesNvFp4`, `LaneMeaning`, `NvFp4`, `NvFp4Error`,
  `NumberFormats`, `Twister`): row-lane kernels against the reference products and those against the products of
  matrices, quantization over the reals, and the in-place generator.

`dafny verify dfyconfig.toml` checks everything.

Assumptions that the proofs name: fewer than UINT_MAX references to a model are held at a time (at UINT_MAX the count
saturates, and a release that read the count just before then subtracts from it: `Lifecycle.RetainAtTheLimit` and
`Lifecycle.StaleReleaseAtTheLimit`); canonical output is no larger than the 64 MiB input limit; a machine sum that is
not zero is not rounded to zero, a fact of IEEE arithmetic with subnormals.

Where the code is narrower than its description: router selection marks an empty slot with the least finite float, so
a logit of that value counts as absent (`TopK.SelectIsBestIff` says exactly when it matters, and
`Routing.RepeatsOutgrow` what an expert chosen twice does to the buffers of its group). The NVFP4 row-lane kernel does
not repeat the reference's operands exactly, since its table has +0 for code 8 where the reference has -0; its outputs
are the same all the same (`LanesNvFp4.SignOfZeroIsAbsorbed`).

White space between JSON values is what the C library's `isspace` takes: beside the four characters of RFC 8259,
section 2, the vertical tab and the form feed.

## Model

| member | source | states |
|---|---|---|
| `Bpe.RescanIsLowestLeftmost` | jb.c:2080-2082 | the full rescan finds a position exactly if its pair has the lowest rank of all adjacent pairs and is the leftmost of that rank, and none exactly if no adjacent pair is mergeable |
| `Bpe.MergeAllKeepsText` | jb.c:2080-2129 | repeated rescanning and merging keeps the concatenated token text, for every merge table and initial sequence, and stops only when nothing is mergeable |
| `Bpe.LeastCandidateIsBest` | jb.c:2080-2091 | a heap candidate that is least and still fresh is the pair a full rescan would pick, stale candidates notwithstanding |
| `Bpe.StaleCandidate` | jb.c:2106-2108 | dropping a candidate whose node or neighbour has changed loses no mergeable pair: every one is still covered by a candidate |
| `Bpe.PushPair` | jb.c:2031-2044 | a pair with a rank is added to the heap with its position and ids, one without is not, and the heap stays ordered |
| `Bpe.MergeNode` | jb.c:2118-2126 | merging at a node unlinks its right neighbour, gives the merged sequence, pushes at most two candidates and leaves every mergeable pair covered |
| `Bpe.Turn` | jb.c:2090-2127 | one turn of the loop keeps the outcome of merging by rescan, and either a node or a candidate goes away: the loop's termination measure |
| `Bpe.Walk` | jb.c:2128-2129 | the output walk from slot 0 visits exactly the live nodes, in order |
| `Bpe.MergeLoop` | jb.c:2083-2129 | the heap and linked-list loop returns what repeated full rescans return, for every merge table and id sequence, with three heap slots per id |
| `BpeHeap.Push` | jb.c:2036-2043 | inserting sifts the candidate up from the end |
| `BpeHeap.Pop` | jb.c:2091-2105 | removing takes the root and sifts the last candidate down |
| `BpeHeap.RootIsLeast` | jb.c:2091 | no candidate of an ordered heap is before its root |
| `BpeHeap.PushKeepsHeap` | jb.c:2036-2043 | an insertion keeps the heap's order and adds exactly the candidate |
| `BpeHeap.RestKeepsHeap` | jb.c:2091-2105 | a removal keeps the order, removes exactly the root, and the root was least |
| `BpePiece.EncodeKeepsText` | jb.c:2046-2131 | an encoded piece spells its text (with byte fallbacks spelled out where a character is no token), and nothing mergeable is left |
| `BpePiece.Piece` | jb.c:2046-2131 | the whole encoder: character or byte-fallback ids, then the merge loop, give the specification's outcome, failures included; which ids it starts from is said by `BpeFirst.FirstIdsSayThePiece` |
| `BpeFirst.FallbackNames` | jb.c:2070 | a byte's fallback token is `<0x`, two upper-case hexadecimal digits and `>`, and reading those digits gives the byte back: no other text names it |
| `BpeFirst.FirstIdsSayThePiece` | jb.c:2063-2079 | for every piece that has first ids, reading them back one by one, a character's token as its text and a fallback token as the byte it names, gives the piece |
| `BpeFirst.FallbackAbsentIff` | jb.c:2063-2079 | a piece fails for an absent fallback exactly if, after well-formed characters that can all be said, some character is no token and some byte of it is named by no token |
| `Transformer.AttendTokenLocal` | jb.c:6575-6619 | a causal token's attention reads no row after its own |
| `Transformer.SeenIff` | jb.c:6578-6591 | the bounds of a token's attention enclose position j exactly if j is there yet, not after the token unless in a canvas, and within the window unless the layer is full |
| `AttentionMeaning.AttendTokenIs` | jb.c:6559-6624 | a token's row after attention is the output of its heads, each, made for its own position, attending to the keys and values at exactly the positions it sees, in order |
| `AttentionMeaning.AttendIsMean` | jb.c:6592-6619 | over exact arithmetic a head's result is the sum of the values, each weighted by its exponential's share, taken against the greatest score |
| `AttentionMeaning.MaximumIsMost` | jb.c:6601-6603 | no score is above the maximum, which is one of them unless none is above the least float, for any strict order of floats |
| `AttentionMeaning.HeadsShare` | jb.c:6577-6580 | consecutive query heads share a key and value head, a layer's share at a time |
| `PassMeaning.AttendsIs` | jb.c:6559-6624 | attention gives every token exactly one row |
| `PassMeaning.PassIs` | jb.c:7063-7131 | there is exactly one way to write a pass out: embedding, then in each layer norm, attention, residual and feed-forward, each layer on the rows of the one before; and its rows are the model's |
| `PassMeaning.StoredIs` | jb.c:6371-6386 | the K and V a pass stores at a layer are the cached rows, then its own tokens', each made for its own position |
| `PassMeaning.PrefillIs` | jb.c:7063-7085 | a prompt's K and V are made from the rows of a causal pass of the encoder with no cache, position by position |
| `PassMeaning.CanvasIs` | jb.c:7111-7131 | a canvas's rows are the final norm of a pass of the decoder over the prompt's cache, each token seeing the whole canvas |
| `Transformer.LayerRowsLocal` | jb.c:6952-6996 | a layer's first rows depend on its first input rows only |
| `Transformer.RowsLocal` | jb.c:7063-7109 | so do the rows after any number of layers |
| `Transformer.SuffixTokenIsCausal` | jb.c:6575-6619 | a suffix token over cached rows attends exactly as the same token of the whole sequence does, window and cached/own split included |
| `Transformer.SuffixLayerIsCausal` | jb.c:6504-6628 | a layer on a suffix with the prefix's K/V gives the whole sequence's rows from there on, and the whole sequence's K/V |
| `Transformer.SuffixRows` | jb.c:7087-7109 | after any number of layers the suffix pass's rows are the monolithic pass's |
| `Transformer.SamePrefix` | jb.c:8435-8442 | prompts that share a token prefix have the same prefix K/V |
| `Transformer.CachedSuffixIsExact` | jb.c:7063-7109 | installing one prompt's prefix rows and running the suffix pass on another that shares the prefix yields, at every layer and position, the K/V and rows of monolithic causal prefill of the other |
| `Transformer.PaddingIsInvisible` | jb.c:7133-7163 | tokens appended as padding change no useful row and no useful K/V at any layer |
| `Attention.DotRun` | jb.c:6592-6600 | a run of scores is the dot products of the query with the run's keys, in order |
| `Attention.Maximum` | jb.c:6601-6603 | the running maximum is that of the scores, taken in order |
| `Attention.AttendHead` | jb.c:6592-6619 | scores over cached then own keys, exponentials, and the mix of cached then own values are one attention over all rows from start to end |
| `Attention.CopyRows` | jb.c:6371-6386 | one sequence's K/V output is its cache followed by its first own rows |
| `Attention.KvOutput` | jb.c:6371-6386 | all segments' outputs hold their cache followed by their kept own rows and nothing of other segments or padding; it fails exactly if some planned length differs |
| `Layer.Seen` | jb.c:6578-6591 | the start and end of what a token sees: position j lies between them exactly if it is there yet, is the token's own or an earlier one unless the token is in a canvas, and is less than a window away unless the layer is full |
| `Layer.TokenHeads` | jb.c:6575-6619 | a token's heads are computed with the right K/V head and rows |
| `Layer.AttendAll` | jb.c:6559-6624 | every token of every segment attends as it would alone |
| `Layer.AttentionSegments` | jb.c:6504-6628 | attention over several segments in place: every output row and kept K/V is that of the segment alone; it fails exactly on unplanned output storage |
| `Layer.LayerSegments` | jb.c:6952-7044 | a whole layer over several segments gives each the rows and K/V of running it alone |
| `Engine.Embed` | jb.c:7046-7056 | embedding maps each token, and norms it for the decoder |
| `Engine.ForwardLayer` | jb.c:7063-7197 | one layer of a batched pass keeps every segment's rows and K/V equal to those of its own pass |
| `Engine.Forward` | jb.c:7063-7197 | a batched pass over all layers gives every segment the rows and K/V of running it alone |
| `Passes.Prefill` | jb.c:7063-7085 | prefill stores the monolithic K/V of every layer |
| `Passes.PrefillSuffix` | jb.c:7087-7109 | suffix prefill stores, at every layer, the prefix rows followed by the suffix's |
| `Passes.Decode` | jb.c:7111-7131 | each canvas of a decode gets the rows it would get alone over the shared cache |
| `Passes.DecodeMulti` | jb.c:7165-7197 | so does each segment of a decode over different documents' caches |
| `Passes.PrefillSuffixMulti` | jb.c:7133-7163 | each padded suffix of a microbatch gets the K/V of its own unpadded suffix pass |
| `Prefix.CommonPrefix` | jb.c:8435-8438 | the longest common token prefix: the next tokens differ unless one ends |
| `Prefix.PrefixRowsAreMonolithic` | jb.c:8461-8466 | the first rows of a prompt's K/V are the K/V of its prefix |
| `Prefix.PrefillThrough` | jb.c:8432-8482 | through the cache, hit or miss, the prompt's K/V is that of monolithic prefill; it hits exactly if the schema is the entry's and the entry's tokens begin the prompt, fails on a hit exactly if nothing is left to run and on a miss exactly if nothing or everything is shared, and otherwise leaves the entry that serves the prompt |
| `Prefix.LongestSuffix` | jb.c:8626-8632 | no suffix is longer than the padded length |
| `Prefix.PadSuffixes` | jb.c:8668-8686 | every padded segment starts with its prompt's suffix |
| `Prefix.PrefillBatch` | jb.c:8662-8690 | a microbatch that shares the entry gives every prompt its monolithic K/V at every layer |
| `Reads.ReadsTaken` | jb.c:8389-8392 | reads are executed once each in order: as many as requested, or in automatic mode one if the first is certain and four otherwise |
| `Reads.AnswersAre` | jb.c:8379-8392 | a job's totals are those of its reads, each read's rows added once, in order, with the rows of its own canvases decoded by themselves over the prompt, and nothing else |
| `Reads.ShareIsMost` | jb.c:8512-8515 | the first automatic read is decoded alone; otherwise a decode takes all remaining reads, or as many as 4096 tokens hold and not one fewer |
| `Reads.ShareFits` | jb.c:8239-8245 | the canvases that share a decode fit both the canvas buffer and the context |
| `Reads.SharedSegment` | jb.c:8512-8520 | segment k * groups + g of a shared decode is group g of read k |
| `Reads.Job.FillCanvas` | jb.c:8286-8299 | a read's canvas is written to its place, and the places before and after it stay as they were |
| `Reads.DecodeGroups` | jb.c:8492-8500 | read by read and group by group decoding gives a read's rows |
| `Reads.DecodeShared` | jb.c:8512-8522 | a shared decode gives every canvas of every read the rows it has alone |
| `Reads.RunSequential` | jb.c:8490-8504 | the sequential build's loop is the specification, same canvases, order and stop; a job that has not read yet ends with its answers: every read added once, in order |
| `Rounds.LayRound` | jb.c:8692-8711 | a round's buffer holds the canvases of exactly the jobs that still read, each job's together from its base on, and never more than the planned arrays hold |
| `Rounds.RunRound` | jb.c:8692-8726 | one round of a microbatch advances every job by one read of its own sequential loop, or finds all jobs done and changes nothing |
| `Rounds.RunRounds` | jb.c:8691-8726 | after all rounds, with jobs dropping out when they are done, every job has its answers, every read of its own added once and in order, as if it had run alone, one read after the other |
| `Microbatch.CheckTogether` | jb.c:8613-8641 | the test of a microbatch, with its flags, longest suffix and sums, passes exactly if the entry serves every request, all canvases have one shape, and canvases, padded suffixes and K/V have room |
| `Microbatch.TogetherIs` | jb.c:8613-8641 | the whole test in terms of the requests: at least two, of the entry's schema, prompts that begin with its tokens, canvases of one shape and question count, at most 4096 tokens of canvases and of padded suffixes, and K/V bytes within the limit |
| `Microbatch.RunRow` | jb.c:8401-8526 | one request through the cache, hit or miss, ends with the answers it has with no cache, no other request and one read after the other |
| `Microbatch.RunRows` | src/api.inc:463-467 | one request after the other: the cache goes from request to request as specified, up to the first that fails |
| `Microbatch.HitRows` | jb.c:8613-8648 | requests that pass the test all hit when they run row by row, and one of them fails exactly if the entry is its whole prompt |
| `Microbatch.RunTogether` | jb.c:8610-8727 | a microbatch refuses exactly by the test, fails exactly if row by row would, and otherwise gives every request the answers it has by itself |
| `Microbatch.RunCall` | src/api.inc:460-467 | microbatch or row by row makes no difference: the call's success, every request's answers, which are its own reads over its own prompt added in order, and the cache afterwards are those of the requests one after the other, whatever the limit on a microbatch |
| `Reads.RunShared` | jb.c:8512-8526 | the scheduler that shares decodes terminates with a job's answers, every read added once and in order, exactly as the sequential loop does |
| `TopK.BestIsUnique` | jb.c:6630-6632 | at most one list of k experts is sorted by value, then index, and not beaten by any left out |
| `TopK.BestIsByRank` | jb.c:6630-6632 | a list is the k best exactly if its i-th expert has exactly i experts with a greater logit, or the same one and a smaller number |
| `TopK.InsertAt` | jb.c:6643-6649 | insertion shifts the lower entries down by one and drops the last |
| `TopK.Select` | jb.c:6633-6651 | the selection loop returns the k best distinct experts, in order, if and only if there are enough logits above the empty marker or the lowest-indexed experts fill the list anyway; in any case the best of the logits above it come first, and leftover slots count up from expert zero |
| `TopK.SelectIsBestIff` | jb.c:6636-6651 | that condition is exact, for every list of logits no lower than the marker |
| `TopK.TooFewLogits` | jb.c:6636-6651 | the concrete failure, for 128 experts and 8 slots: with two logits above the marker, experts 0 and 1 are both chosen twice |
| `TopK.DistinctIffEnough` | jb.c:6636-6651 | the selection repeats no expert exactly under the condition that makes it best, for every list of logits no lower than the marker |
| `Experts.DistinctFits` | jb.c:6745-6770 | when no token repeats an expert, no expert's group has more pairs than there are tokens |
| `Experts.DistinctIsValid` | jb.c:6745-6770 | so the buffers, which hold one pair and one row per token, have room for every group |
| `Routing.RouteAll` | jb.c:6745-6747 | every token's experts and weights are its own selection's and its own logits', wherever it stands in the batch |
| `Routing.DistinctIffEnough` | jb.c:6633-6651 | no token of a batch repeats an expert exactly if every token has enough logits above the marker, or its lowest experts fill the list anyway |
| `Routing.EnoughIsValid` | jb.c:6745-6770 | in that case every expert's group fits its buffers |
| `Routing.RepeatsOutgrow` | jb.c:6760-6770 | the condition cannot be dropped: when a batch's tokens agree on a choice that repeats an expert, that expert's group has two pairs for every token and outgrows its buffers |
| `Routing.TokenIsOwn` | jb.c:6806-6820 | within any batch a token's row is a function of its own logits, row, dense output and residual and of the one list of its best experts |
| `Routing.SameInEveryBatch` | jb.c:6745-6820 | two batches that share a token, one of them perhaps only that token, give it the same row |
| `Routing.RouteAndRun` | jb.c:6745-6820 | from logits that meet the condition, every token's row is what routing that token alone gives: its own weights, its own best experts in order, nothing of another token |
| `Routing.OwnRowIs` | jb.c:6806-6820 | that row: from zero on each slot adds its expert's output times its weight, once and in order, and the sum goes to the dense output and the residual |
| `RouterWeights.Weights` | jb.c:6651-6667 | over the reals a slot's weight is its logit's exponential over the sum of the chosen ones', times the expert's scale: the greatest logit and the sum over all experts cancel out |
| `RouterWeights.WeightsIgnoreShift` | jb.c:6651-6667 | weights depend on the differences of logits only |
| `RouterWeights.WeightsSumToOne` | jb.c:6651-6667 | with scales of one, a token's weights sum to one |
| `Experts.Gather` | jb.c:6760-6770 | an expert's group is exactly the (token, slot) pairs that chose it, in token order, with their rows |
| `Experts.Scatter` | jb.c:6794-6800 | scattering a group writes each of its contributions, each for the first time |
| `Experts.SumSlots` | jb.c:6806-6812 | a token's sum is over its slots in order |
| `Experts.RunExperts` | jb.c:6754-6820 | for every batch whose groups fit their buffers, repeated choices included, grouped evaluation gives every token what evaluating its experts one after another gives |
| `FrameRuns.StepKeepsInv` | src/foundation.inc:351-564 | every operation, including failure at any point, keeps the frame protocol's invariant |
| `FrameRuns.EveryRunIsSafe` | src/foundation.inc:351-564 | over every run: each allocated block is tracked, untracked or freed, none is freed twice, and without a frame nothing is tracked or armed |
| `FrameRuns.InsideFrame` | src/foundation.inc:496-556 | what happens inside a frame leaves outer frames, their blocks and their cleanups alone, and the blocks born inside are those with later sequence numbers |
| `FrameRuns.FrameFailure` | src/foundation.inc:547-564 | abandoning a frame frees exactly the tracked blocks first allocated since its entry, never an older one that was only reallocated, runs the cleanups pushed since once in reverse order, and restores the outer state |
| `FrameLaws.LeaveUndoesEnter` | src/foundation.inc:496-545 | leaving a frame at once undoes entering it, status included |
| `FrameLaws.HandedOver` | src/foundation.inc:531-545 | a block allocated in the only frame is the caller's once that is left: live and on no list |
| `FrameLaws.EveryRunIsBounded` | src/foundation.inc:505-511 | over every run no frame has more than 16 cleanups and the thread never more than 64 |
| `FrameLaws.PushIff` | src/foundation.inc:505-511 | a cleanup is taken exactly if its frame is the innermost and has fewer than 16 and the thread has fewer than 64; otherwise the frame is abandoned |
| `FrameLaws.DisarmUndoesPush` | src/foundation.inc:513-520 | disarming the cleanup just pushed undoes the push, and disarming any other is a failure |
| `FrameLaws.LeaveNeedsDisarm` | src/foundation.inc:531-545 | leaving a frame with a cleanup armed is a failure; otherwise it pops the frame, frees and runs nothing and restores the status |
| `Allocations.Thread.TryAllocate` | src/foundation.inc:376-411 | allocation takes the protocol's step on the real list: linked first if a frame is open, with the next sequence number |
| `Allocations.Thread.Reallocate` | src/foundation.inc:439-470 | reallocation keeps the sequence number and moves the block to the front, or on failure relinks it and dies |
| `Allocations.Thread.Release` | src/foundation.inc:472-480 | a released block is unlinked and freed |
| `Allocations.Thread.Untrack` | src/foundation.inc:482-490 | an untracked block leaves the list and is not freed |
| `Allocations.Thread.PopFrame` | src/foundation.inc:531-545 | leaving a frame pops it, restores the status, and hands the whole list over if it was the last |
| `Allocations.Thread.Leave` | src/foundation.inc:531-545 | leaving with a cleanup armed inside is a failure, otherwise a pop |
| `Allocations.Thread.Die` | src/foundation.inc:312-341 | a failure abandons the top frame, or exits if there is none |
| `Allocations.Thread.CleanupPush` | src/foundation.inc:505-511 | a cleanup is pushed within the limits, else the call dies |
| `Allocations.Thread.CleanupDisarm` | src/foundation.inc:513-520 | only the newest cleanup of the frame can be disarmed |
| `Allocations.Thread.Enter` | src/foundation.inc:496-503 | entering marks the sequence counter and saves the status |
| `Arena.JbArena.Alloc` | src/foundation.inc:595-609 | an allocation is 64-byte aligned, in bounds and apart from all live blocks, moves used and peak as planned, and fails exactly if it does not fit |
| `Arena.JbArena.Reset` | src/foundation.inc:615-619 | a reset keeps exactly the live blocks that end at or before the mark |
| `Arena.PlanShift` | src/foundation.inc:645-650 | a plan started at an aligned offset is the plan from zero, shifted |
| `Arena.PlanMonotone` | src/foundation.inc:645-650 | larger blocks never plan less |
| `Arena.PlanSwap` | jb.c:6030-6032 | two neighbouring blocks may be planned in either order if one is a multiple of the alignment and a block follows |
| `ForwardPlan.TailsAgree` | jb.c:6030-6032 | the expert tail's planned order and the order it is allocated in need the same space |
| `ForwardPlan.PlacedAsPlanned` | jb.c:6007-6038 | the feed-forward plan is the feed-forward's allocation, order of owners and hidden rows notwithstanding |
| `ForwardPlan.FullDominates` | jb.c:5982-6005 | no layer's attention needs more than the plan, which is made for a full layer over the longest cache |
| `PlanTotals.FeedForwardIs` | jb.c:6007-6038 | the feed-forward takes 183624 bytes a token, 197704 with quantized activations, and 22528 besides, for numbers of tokens that leave no padding |
| `PlanTotals.AttentionIs` | jb.c:5982-6005 | attention over one document takes 73728 bytes a token, and 4 for each token and position it may see |
| `PlanTotals.ForwardIs` | jb.c:6040-6051 | a pass takes its rows and the larger of the scoring tail and a layer: two more rows a token, and the larger of attention and feed-forward |
| `PlanTotals.ScoreIs` | jb.c:8301-8320 | scoring takes 8 bytes a question, 8 a candidate and 8 for each of the most candidates of a question, and the first automatic read 1059844 a question and 2097152 besides |
| `ForwardTrace.Attention` | jb.c:6351-6369 | attention's blocks reach exactly its need and are given back |
| `ForwardTrace.FeedForward` | jb.c:6684-6690 | the feed-forward's blocks reach exactly its need and are given back |
| `ForwardTrace.Layer` | jb.c:6952-6996 | a layer reaches exactly the larger of its attention's and feed-forward's needs above its own rows |
| `ForwardTrace.Score` | jb.c:8322-8388 | scoring reaches exactly its planned bytes |
| `ForwardTrace.ForwardPass` | jb.c:6270-6276 | a whole pass with its scoring tail never runs out, and its peak is exactly the planned size |
| `ForwardTrace.PlannedPass` | jb.c:6074-6087 | for all token counts, cache lengths, segment counts, both checkpoint kinds and any scored reads, the end check of a planned pass succeeds |
| `ForwardTrace.SharedDecodePlan` | jb.c:8301-8320 | the score plan made for the first read of a shared decode is that of every read in it |
| `ForwardTrace.SharedPass` | jb.c:8507-8524 | a decode that several reads share, planned with the score bytes of its first read only, scores all of them and ends exactly at its plan |
| `StoragePlans.KvPlan` | jb.c:6284-6295 | the planned K/V bytes are exactly the tokens of all documents times what one token takes in all layers: the alignment never pads |
| `PlanTotals.PerTokenIs` | jb.c:6284-6295 | a token's K and V take 450560 bytes in all thirty layers |
| `StoragePlans.BatchBytes` | jb.c:8635-8641 | what a microbatch's K/V limit is compared with is exactly what is then planned |
| `StoragePlans.KvBind` | jb.c:6297-6309 | binding never runs out, puts the K and V rows of every document's every layer where the plan has them, and uses the slab up |
| `StoragePlans.RoomsApart` | jb.c:6297-6309 | no two of those rooms overlap |
| `StoragePlans.WorkerKv` | jb.c:6319-6336 | for all numbers and lengths of documents, the end check of K/V storage succeeds |
| `StoragePlans.Control` | jb.c:8657-8680 | for all batch sizes and canvases, a microbatch's ten control arrays use up their planned storage and its end check succeeds |
| `PlanTotals.ControlIs` | jb.c:8657-8680 | those arrays take 756 bytes a document and 4 for each place of its padded suffix, and 16 a canvas and 4 for each of its tokens, for numbers that leave no padding |
| `Utf8.NextCp` | src/foundation.inc:831-850 | the decoder's loop is the specification |
| `Utf8.NextOfPut` | src/foundation.inc:808-850 | decoding an encoded scalar value, anywhere in a string, gives it back (RFC 3629, sections 3 and 4) |
| `Utf8.PutOfNext` | src/foundation.inc:831-850 | whatever is accepted is the encoding of the scalar value returned |
| `Utf8.NextAcceptsExactlyPut` | src/foundation.inc:808-850 | the decoder accepts exactly the encodings of scalar values: no overlong form, surrogate or value past U+10FFFF |
| `JsonStrings.WriteString` | jb.c:7338-7370 | a quoted string is written exactly if it is well-formed UTF-8, in both modes |
| `JsonStrings.WriteCp` | jb.c:7344-7367 | the bytes written for one code point, surrogate pairs included |
| `JsonStrings.ScanString` | src/json.inc:71-94 | the scanner's loop finds the closing quote or refuses the escape, control byte or missing end |
| `JsonStrings.CopyString` | src/json.inc:272-330 | decoding undoes escapes and fails exactly on lone surrogates, NUL and ill-formed UTF-8; what an escape stands for is said by `JsonEscapes.SpellingReadBack` |
| `JsonEscapes.SpellingReadBack` | src/json.inc:263-330 | every text that spells a code point other than NUL is read back as that code point's bytes, wherever it stands: the plain bytes, each two-character escape, four hexadecimal digits in either case, and surrogate pairs (RFC 8259, section 7) |
| `JsonEscapes.WholeReadBack` | src/json.inc:71-94 | so is every string put together from such spellings, and it is scanned to its closing quote |
| `JsonEscapes.TextIff` | src/json.inc:272-330 | a scanned string has a text that is well-formed exactly if it is put together from spellings of code points other than NUL, and then the text is what they stand for |
| `JsonEscapes.EscapeIsShortest` | jb.c:7344-7367 | the printer's escape of a code point spells it, and no spelling, or none in ASCII where that is asked for, is shorter |
| `JsonEscapes.EscapedIsAscii` | jb.c:7338-7370 | in ASCII mode every byte of an escaped string is below 128 |
| `JsonStrings.EscapeReadBack` | jb.c:7344-7367 | reading back the escape of any code point but NUL gives its bytes, wherever it stands |
| `JsonStrings.RoundTrip` | jb.c:7338-7370 | a NUL-free string is written exactly if it is well-formed, and is scanned and decoded back unchanged, in both modes and whatever follows it |
| `JsonStrings.UnescapedHasNoNul` | src/json.inc:287-301 | no decoded text holds a NUL |
| `JsonStrings.DecodedCanBeWritten` | src/json.inc:272-330 | every decoded text can be written again, in both modes |
| `JsonStrings.Unescaped` | src/json.inc:332-337 | a decoded text is never longer than its token, so the copy buffer suffices |
| `JsonParse.CheckPrimitive` | src/json.inc:33-69 | the primitive check accepts exactly the three literals and what its number scan accepts |
| `JsonNumber.NumberGrammar` | src/json.inc:37-68 | that scan accepts exactly the texts of a sign, a whole part without leading zeros, an optional fraction and an optional exponent (RFC 8259, section 6) |
| `JsonNumber.TextIsValid` | src/json.inc:37-68 | every number spelled from its parts is accepted |
| `JsonParse.Parser.New` | src/json.inc:17-29 | a new token is appended and counted at its parent |
| `JsonParse.Parser.StringToken` | src/json.inc:71-94 | a string appends one token for its text |
| `JsonParse.Parser.Container` | src/json.inc:102-134 | a container appends its own token and its children's, in preorder, each counted |
| `JsonParse.Parser.Value` | src/json.inc:96-146 | parsing succeeds exactly if the specification does, with at most 256 open containers, and appends exactly the preorder of the value's tree with its child counts; which texts those are is said by `JsonGrammar.DocumentIff` |
| `JsonGrammar.ScanIff` | src/json.inc:71-94 | a string ends at a place exactly if a quote stands there and what lies before is put together from bytes above the controls and the escapes |
| `JsonGrammar.ValueParses` | src/json.inc:96-146 | every tree of values, spelled with any white space wherever it may stand, nested at most 256 deep, parses to its node, in any surroundings that end it |
| `JsonGrammar.ValueSpelled` | src/json.inc:96-146 | whatever parses is the spelling of such a tree |
| `JsonGrammar.DocumentIff` | src/json.inc:203-217 | a text parses to a node exactly if it is white space, the spelling of a tree nested at most 256 deep, and white space, and the node is the tree's (RFC 8259, section 2) |
| `JsonSense.DocumentMeans` | src/json.inc:96-146 | an accepted document says exactly what the tree it spells means, string by string |
| `JsonSense.AcceptedIff` | src/json.inc:154-217 | a text is accepted exactly if it has at most 64 MiB, spells a tree nested at most 256 deep, and in every object with more than one key the keys have texts and differ |
| `JsonLookup.ValueIsShaped` | src/json.inc:96-146 | in every parsed tree strings and primitives are leaves and an object's children alternate keys and values |
| `JsonLookup.KidPlaced` | src/json.inc:236-249 | every child's subtree is contiguous, and what follows it belongs to an outer value |
| `JsonLookup.InsideParents` | src/json.inc:239-241 | every token inside a subtree has its parent inside it |
| `JsonLookup.Matches` | src/json.inc:219-229 | the comparison of a token with a text, decoding it only if it has escapes |
| `JsonLookup.KeyEqualsIsDecoded` | src/json.inc:219-229 | that comparison is of decoded texts |
| `JsonLookup.ObjGet` | src/json.inc:236-249 | the linear scan is the search through the object's own members in order |
| `JsonLookup.LookupIsMapLookup` | src/json.inc:236-249 | for an object with distinct keys it finds the one value whose key decodes to the text, and -1 exactly if there is none |
| `JsonLookup.CollectKeys` | src/json.inc:179-184 | the second pass over an object's tokens decodes exactly its own keys |
| `JsonLookup.CheckKeys` | src/json.inc:154-201 | the check of the flat array passes exactly if in every object with more than one member all keys decode and differ |
| `JsonOrder.LessIsTotal` | src/json.inc:148-150 | strcmp orders NUL-free strings totally |
| `JsonOrder.BytesOrderAsCodePoints` | jb.c:7377-7379 | on well-formed UTF-8 it is the order of code points |
| `JsonOrder.SortedIsUnique` | jb.c:7424-7425 | distinct keys have one sorted order, whatever the sorting routine |
| `JsonOrder.NeighboursTell` | src/json.inc:185-196 | after sorting, keys are distinct exactly if no two neighbours are equal |
| `JsonPrint.MeaningIsGood` | src/json.inc:96-201 | an accepted document's tree has proper texts, distinct keys and bounded depth |
| `JsonPrint.CanonicalTwice` | jb.c:7424-7434 | sorting keys twice is sorting them once |
| `JsonPrint.WrittenParses` | jb.c:7381-7437 | a written tree parses, wherever it stands, to a node that says the tree |
| `JsonPrint.PrintingIsAFixedPoint` | jb.c:7439-7445 | any document that is accepted and prints re-parses to the same tree with its keys in order and prints to the same bytes, sorted or not, in both ASCII modes |
| `JsonNeat.WriteIs` | jb.c:7381-7437 | what is printed is the spelling of the tree with one space after every comma and colon and no other white space |
| `JsonNeat.CanonicalIs` | jb.c:7409-7437 | unsorted printing keeps the order of keys, and sorted printing says the same tree with the keys of every object in order |
| `JsonNeat.PrintedIsAscii` | jb.c:7338-7370 | a document printed in ASCII mode is printed in ASCII |
| `JsonWriter.Tokens` | src/json.inc:203-217 | documents are accepted exactly as specified, and yield their preorder tokens |
| `JsonWriter.PrintArray` | jb.c:7393-7408 | an array's own items are found, separated and written in order |
| `JsonWriter.PrintObject` | jb.c:7409-7437 | an object's keys are collected, sorted if asked, and written with their values |
| `JsonWriter.PrintValue` | jb.c:7381-7437 | printing from the flat array gives the canonical form of the tree, and fails exactly if some string in it has no text |
| `JsonWriter.PrintDocument` | jb.c:7439-7445 | parsing and printing together give a document's canonical text |
| `JsonWriter.SortValues` | jb.c:7424-7434 | sorting members by key carries every value with its key |
| `Lifecycle.StepKeepsInv` | src/api.inc:190-215 | every atomic step of every call keeps: the count equals the number of holders, a session is touched by one call at most and only while busy, lent references outlive the calls that use them |
| `Lifecycle.EveryRunIsSafe` | src/api.inc:190-215 | so does every interleaving of retain, free, session create and free, decide and log callbacks that respects ownership, and no step of one touches a freed session |
| `Lifecycle.RetainAtTheLimit` | src/api.inc:190-200 | the bound is exact: with UINT_MAX references held a client's retain succeeds and is not counted |
| `Lifecycle.ReleaseAtTheLimit` | src/api.inc:202-206 | a release that finds the counter at UINT_MAX leaves it there, so that the model is kept for good |
| `Lifecycle.StaleReleaseAtTheLimit` | src/api.inc:202-208 | one that read the counter before it got there still subtracts: the counter is below its maximum again while references that were not counted are held |
| `Lifecycle.InvMeans` | src/api.inc:202-215 | at most one call uses a session, none outlives the model, and the model is destroyed once, when and only when nothing holds it |
| `Lifecycle.LoggerMayFreeItsSession` | src/api.inc:580-598 | once busy is cleared the log callback may free the session whose failure it reports |
| `Lifecycle.EveryRunReports` | src/api.inc:574-606 | over every run: a call past the poison check is on a session that is not poisoned, and when it gives the session back the error text is cleared if it succeeded and set if it failed |
| `Lifecycle.BusyIsRefused` | src/api.inc:574-576 | a call on a session that another call uses is refused and changes nothing |
| `LifecycleCalls.SucceedingCall` | src/api.inc:574-585 | a call that succeeds leaves every reference, call and session as it was, and its session without an error text |
| `LifecycleCalls.FailingCall` | src/api.inc:586-598 | a call that fails leaves an error text, its session free again and poisoned exactly if the failure found a flag set, and every reference as it was: the one taken for the log callback is given back |
| `LifecycleCalls.PoisonedCall` | src/api.inc:600-606 | a call on a poisoned session leaves all but its error text as it was |
| `LifecycleCalls.FreeUndoesCreate` | src/api.inc:312-389 | a session that is created and freed took one reference and gave it back |
| `LifecycleCalls.FreeUndoesRetain` | src/api.inc:190-215 | so does a reference of the client's own, with several held |
| `LifecycleCalls.LastFree` | src/api.inc:202-215 | the last release destroys the model, once |
| `Sessions.CallOutcome` | src/api.inc:31-44 | a call on an idle session succeeds exactly if no step fails and the session is not poisoned, leaves all flags clear and the prefix empty or complete, and poisons exactly if the failure struck while more slabs of some kind had begun than ended |
| `Sessions.ArmedIsOpen` | src/api.inc:31-44 | the steps whose failure poisons, counted out from the script, are those after which something has begun and not ended |
| `Sessions.ScriptCounts` | jb.c:8401-8747 | rows run a pass for every prompt and every decode, in one K/V slab each, and install one entry a miss; a microbatch runs one pass over all prompts and one a round, in one K/V and one control slab, and installs none |
| `Sessions.EverySession` | src/api.inc:391-424 | over every sequence of calls with failures anywhere, the session is idle between calls, its prefix empty or complete, and poisoned exactly if some failure struck with a slab open; what it owns meanwhile is `SessionStorage.EverySessionKeepsItsMemory` |
| `SessionStorage.CallSettles` | jb.c:8401-8482 | a call with any storage demands, failing at any step, part way through one, or not at all: the session's arenas and prefix blocks stay its own, off the frame's list and not freed, no two the same; the blocks off the list that the session does not name are those from before, and after a success in the only frame exactly what was on the call's list, which is handed over; on the list are the blocks from before and, after a success in an outer frame, what the call left there |
| `SessionStorage.FailureChangesNothing` | src/foundation.inc:626-643 | abandoning the call's frame changes no arena, capacity or prefix block: a growth that fails leaves the old block and its capacity |
| `SessionStorage.ScriptOrderly` | jb.c:8440-8470 | every call's script replaces its prefix entry in order: drop, build, install |
| `SessionStorage.EverySessionKeepsItsMemory` | src/foundation.inc:626-643 | over every sequence of calls with a failure at any step and anything else on the thread in between: every arena and prefix block the session names is live, untracked and not freed, it names an entry's two blocks exactly while it has a complete entry, and every block it ever named is still named or was freed |
| `SessionStorage.DestroyedReleases` | src/api.inc:380-388 | freeing an idle session releases exactly the blocks it names, each once, and changes nothing else of the thread |
| `SessionStorage.SessionFreeLeavesNothing` | src/api.inc:380-388 | after any history of calls, failures included, a session that is freed leaves no block that it ever named: each is freed |
| `SessionStorage.SessionArena.Free` | src/foundation.inc:621-624 | an arena's block is released on the real list, if it has one, and the arena is empty |
| `SessionStorage.SessionArena.Reserve` | src/foundation.inc:629-643 | growing takes the protocol's steps on the real list: allocate, untrack, release the old block, install; without memory the arena is as it was |
| `Sessions.RowRun` | jb.c:8401-8586 | in one request the steps at which a failure finds a flag set run from the K/V slab's begin to its end, for hits and misses and any number of reads |
| `Sessions.BatchRun` | jb.c:8610-8747 | in a microbatch those steps run from the control storage's begin to its end, and the prefix does not change |
| `Sessions.HotRun` | jb.c:8440-8482 | the prefix a failed request leaves is the old one, none, or the whole new one |
| `Sessions.Session.Decide` | src/api.inc:391-424 | the decide call on the session's fields has that outcome |
| `Sessions.Session.CallCleanup` | src/api.inc:31-44 | the cleanup poisons exactly if a flag is set, and clears the flags |
| `RowLanes.StoreToken` | jb.c:3102-3103 | storing a token's vector fills its sixteen rows and leaves the rest |
| `LanesBf16.Reference` | jb.c:2616-2637 | the reference BF16 product is the column-by-column dot product of every row and token |
| `LaneMeaning.Bf16Is` | jb.c:2616-2637 | that dot product: from zero on each column's weight times the token's value is added, in order, row-major on both sides |
| `LaneMeaning.Bf16Exact` | jb.c:2616-2637 | over exact arithmetic the product is that of the two matrices |
| `LanesBf16.Pack` | jb.c:2993-3001 | the image holds every sixteen rows transposed |
| `LaneMeaning.Bf16ImageIs` | jb.c:2993-3001 | where each code goes: lane by lane within a column, column by column within sixteen rows |
| `LanesBf16.SumStep` | jb.c:3095-3101 | a vector step is the reference's multiplication and addition in every lane |
| `LanesBf16.Kernel` | jb.c:3081-3106 | the row-lane kernel on the image leaves in every element what the reference leaves: same operations, operands and order, for all rows divisible by sixteen |
| `LanesNvFp4.TablesDiffer` | jb.c:3141 | the kernel's weight table differs from the reference's weights in code 8 only, by the sign of a zero |
| `LanesNvFp4.SignOfZeroIsAbsorbed` | jb.c:2400-2407 | that difference reaches no sum: both tables give the same one, zeros with their signs, for all finite and non-finite inputs; a NaN's own sign and payload are not told apart |
| `LanesNvFp4.PairsCanDiffer` | jb.c:2400-2407 | although it does reach the pairs of products within a sum |
| `LanesNvFp4.Reference` | jb.c:2381-2412 | the reference NVFP4 product is the block-by-block dot product of every row and token |
| `LaneMeaning.NvFp4Is` | jb.c:2381-2412 | that dot product: pair by pair of columns, the low half of a byte before the high half, scaled by the block's scale times the global one |
| `LaneMeaning.NvFp4Exact` | jb.c:2381-2412 | over exact arithmetic the product is that of the scaled matrices, a code standing for its sign, exponent and mantissa |
| `LanesNvFp4.Pack` | jb.c:3003-3021 | the images hold codes and scales transposed, two rows to a byte |
| `LaneMeaning.CodesImageIs` | jb.c:3003-3015 | where each code goes: a byte holds the code of a row in its low half and that of the row eight on in its high half |
| `LaneMeaning.ScalesImageIs` | jb.c:3016-3021 | where each scale goes |
| `LanesNvFp4.LoadCodesAt` | jb.c:3108-3113 | unpacking a column's bytes gives every lane its row's code |
| `LanesNvFp4.Kernel` | jb.c:3138-3177 | the row-lane kernel on the images leaves in every element what the reference leaves, although its table has another zero |
| `NvFp4.NearestIsUnique` | jb.c:2277-2292 | no number has two nearest codes when ties go to the even one |
| `NumberFormats.E4M3Is` | jb.c:2267-2275 | the representable scales: steps of 1/512 at first, from 1/64 on eight equal steps to twice the value (OCP Microscaling Formats v1.0, section 5.3) |
| `NumberFormats.E4M3Range` | jb.c:2277-2292 | the largest of them is 448 |
| `NumberFormats.E2M1Is` | jb.c:2294-2304 | the representable magnitudes: zero, a half, and from one on two equal steps to twice the value, up to six |
| `NumberFormats.LargestIs` | jb.c:2310-2331 | a block's largest magnitude bounds it and is reached |
| `NvFp4.RoundScale` | jb.c:2277-2292 | the E4M3 binary search returns the nearest representable value, ties to even, for every number |
| `NvFp4.RoundValue` | jb.c:2294-2304 | the E2M1 scan does (OCP Microscaling Formats v1.0, section 5.3.3) |
| `NvFp4.ScaleError` | jb.c:2277-2292 | in the normal range the nearest scale is off by at most a seventeenth |
| `NvFp4.BlockError` | jb.c:2310-2331 | if a block's scale is in E4M3's normal unsaturated range, no value moves by more than 3/17 of the block's largest magnitude (which is within 17/96) |
| `NvFp4.SmallBlockVanishes` | jb.c:2323-2327 | with an ideal scale under 1/1024 a block becomes zero, and if it was not zero some value moves by more than the bound |
| `NvFp4Error.BoundHoldsIff` | jb.c:2310-2331 | the exact condition of that bound, subnormal and saturated scales included: it holds for every block of a given largest magnitude exactly if that is at most 34/7 of the block's scale, or between 17/3 and 51/7 of it |
| `NvFp4Error.NormalIsWellScaled` | jb.c:2310-2331 | the normal, unsaturated range always meets the condition |
| `NvFp4.DequantizedIsUnique` | jb.c:2310-2331 | a block has one quantized form |
| `NvFp4.Quantize` | jb.c:2310-2331 | every block of every row is quantized and dequantized so; it is refused exactly for a scale that is not finite and positive, a row length not divisible by 32, or an activation that is not finite, and then the blocks before that activation's are done and the others untouched |
| `Twister.Generator.Regenerate` | jb.c:2228-2234 | the in-place update, which reads words it has already replaced, yields the next 624 words of the recurrence |
| `Twister.Generator.Draw` | jb.c:2227-2241 | the n-th word drawn is the tempered n-th word of the infinite recurrence behind the seed, across any number of regenerations |
| `Twister.ReferenceOutputs` | jb.c:2227-2241 | from the words that its seed 5489 gives, the reference generator's first three outputs |

## Left out

- The CUDA back ends, device memory, AVX2, NEON and fast-math kernels: foreign calls, or a different order of
  operations with no claim of exactness.
- IEEE rounding, `dg_expf`, `dg_tanhf`, entropy and the values of probabilities: opaque functions of their operands.
- Vector instructions as such: lanes, layouts and the order of operations are modelled, an E4M3 byte's meaning is one
  function shared by kernel and reference.
- `dgt_tokenize`'s splitting at special tokens and spaces, vocabulary and merge table loading: the tables are maps.
- `dg_mt_seed` and the rejection loop of `dg_mt_vocab`: the twister starts from any seeded state.
- OpenMP: parallel loops have disjoint writes and run in order here.
- The sign and payload of NaN: `Floats` has one NaN.
- Frames.Step: the message a failure reports is not in it, nor which status it reports outside of the frame.
- What an answer reports about its own run: times, token counts, and whether the cache was hit.
- Overflow of `size_t` in plans, which the program turns into a failure: sizes are unbounded.
- The one block that holds a read's rows in the sequential build, and the two blocks of a prefix entry, as plans: one
  or two allocations of what was just summed.
- A session's calls on several threads' allocation lists: its memory is followed on one thread's frames and list, and
  which threads may call is in `Lifecycle`. What a call allocates of its own is any sequence of the protocol's steps.
- `dg_ff` inside the engine model: the dense and expert feed-forward is one function per row; its grouping is proved
  by itself in `Experts`.
- `dg_layer` and `dg_layer_multi` are one method, since their bodies differ only in the attention call; rows are
  single elements of buffers rather than runs of floats, and cached rows are passed as values rather than shared
  pointers.
- Failures inside a forward pass: shapes are preconditions there; failures of calls are in `Sessions` and `Frames`.
- Sessions.CallOutcome: takes a call's steps from a script of the flag operations in `dg_systemone_execute` and
  `dg_system_batch_execute`; a microbatch that is refused runs row by row, which is the row script with one more step
  before.
- Lifecycle.StepKeepsInv: memory order, the accelerator lock and the allocator switch are not modelled; every atomic
  access is one step.
- NvFp4.Quantize: finite activations are reals, so rounding of its divisions and the sign of a zero are not in it.
- JsonOrder.SortedIsUnique: sorting is an insertion sort; the C library's qsort is any routine that sorts.
- The output buffer's growth and limit when printing, and the size limit of token arrays.
- Model loading, file mapping, the command line, JSONL reading, profiling, SHA-256, prompt and answer formatting,
  argument checks for NULL: plumbing, or settled by reading one line.

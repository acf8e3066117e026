# Verified model of the terllama ternary inference engine

A Dafny model of the parts of terllama where correctness is not evident from one body: the
ternary weight decomposition, the weight files with their loaders and kernels, layer-sharded
inference on a cluster, and two small state machines. `dafny verify dfyconfig.toml` checks all of it.

Numeric claims are over the reals. Claims of bit identity keep floating-point operations
uninterpreted: `Inference.Engine` holds them as function-valued fields, floats are 32-bit words, and
`value` or `store` parameters stand for reading and rounding a float. Loops over mutable buffers are
methods on arrays or objects with fields; each is proved against a function, and the lemmas are about those
functions.

## The four parts

1. **Decomposition** (`Vectors`, `LuFactor`, `LuSolve`, `LeastSquares`, `Ternary`, `Decompose`,
   `TermSearch`, `Refinement`, `BlockScales`, `BlockCells`, `AlsPipeline`, `FittedError`): greedy power-of-two terms, coordinate
   descent, ridge least squares through in-place LU. `Grouped`, `RefinementFailures` and `ScaleFailures` run the
   decomposition on inputs where it gets worse.
2. **Weights and kernels** (`Bytes`, `Bitplane`, `BitOps`, `BitWriter`, `RecordFile`, `FileStreams`,
   `Packing`, `StoredLayers`, `BlockKernel`, `FairyFuse`, `Int8Kernel`, `BitKernels`, `OldRecords`, `OldLayout`,
   `Tq1`, `Tq1RoundTrip`): packer,
   writer, loader, cache and every kernel against one dense matrix-vector product.
3. **Sharded inference** (`LayerNames`, `ShardFile`, `ModelLoader`, `LoadedWeights`, `ShardCoverage`, `Protocol`,
   `Float32`, `FloatValues`, `Inference`, `Cluster`, `CacheHistory`, `GreedyTokens`, `HeadDimSplit`, `Devices`,
   `Partitioner`): the cluster refines the single
   device, and both refine inference without caches.
4. **State machines** (`RateLimiter`, `Sha256`), the hash with a published example (`Sha256Example`).

## Where the code and its own documentation differ

The model follows the code.

- README.md:71-74 promises bit identity with a single device. That holds exactly under the condition of
  `Cluster.ClusterMatchesSingleDevice`, and for several shards loaded from files only when the head-dimension
  fix-up changes nothing (`HeadDimSplit.LoadedClusterMatchesExactly`); `HeadDimSplit.WideHeadsChangeTokens` is a
  model it breaks.
- src/convert/als_decompose.cpp:28-30 and 87-88 say that lu_solve repeats LAPACK's guards. LAPACK skips a
  column update for a zero entry, this code skips a whole row, which changes answers
  (`LuSolve.GuardBreaksSolution`). So the joint scales are the least-squares scales exactly under the condition of
  `BlockScales.BlockFitMinimises`, and can be worse than the scales they replace (`ScaleFailures.FittedIsWorse`).
- src/convert/als_decompose.cpp:303 calls the zero-scale fallback unreachable. It is taken exactly for blocks
  without a non-zero digit (`BlockScales.FallbackExactly`).
- src/loader.h:429-432 says the layouts can be told apart by size. Payloads whose length is a multiple
  of 2^24 are misread (`RecordFile.SniffsOldExactly`).
- The converter writes any number of terms of any size, the loader takes 1 to 32 of fewer than 2^31 bytes
  (`Packing.ContainerReadsBack`).
- src/kernel_avx2.cpp:224-225 multiplies by 1/act_scale where dequantising needs act_scale
  (`Int8Kernel.DequantisesExactly`, `Int8Kernel.OneComesOutWrong`).
- Old-layout records never set num_terms (src/loader.h:472), so ternary_linear returns zeros for them
  (`OldRecords.OldRecordYieldsZeros`).
- src/server/handlers.cpp:91-93 and 112-113 says that idle addresses are evicted. No deque is ever empty
  between requests, so none is (`RateLimiter.AddressesStay`).

## Model

| member | source | states |
|---|---|---|
| LuFactor.Factor | src/convert/als_decompose.cpp:56-85 | In place: succeeds exactly when the matrix is non-singular; then P·A = L·U as a matrix product, all pivots are non-zero and all multipliers are at most 1 in magnitude |
| LuFactor.Stage | src/convert/als_decompose.cpp:57-83 | One pivot step keeps the partial factorisation; it stops only when the matrix has no inverse |
| LuFactor.PivotRow | src/convert/als_decompose.cpp:58-67 | The first row with the largest magnitude in the column |
| LuFactor.EliminatedAtEnd | src/convert/als_decompose.cpp:53-55 | What all stages keep becomes P·A = L·U at the end |
| LuFactor.FactoredIsNonSingular | src/convert/als_decompose.cpp:84 | Success implies that only the zero vector is mapped to zero |
| LuFactor.DeadColumnIsSingular | src/convert/als_decompose.cpp:74 | A pivot column that is zero from the diagonal down yields a non-zero vector mapped to zero |
| LuFactor.InterchangesKeepSolutions | src/convert/als_decompose.cpp:90-93 | Interchanging rows and right-hand side together keeps the solution set |
| LuSolve.Solve | src/convert/als_decompose.cpp:89-107 | In place: the right-hand side goes through the interchanges and the two sweeps with their row guards |
| LuSolve.ForwardExact | src/convert/als_decompose.cpp:94-99 | The guarded forward sweep solves L·y = p if and only if every skipped row product is zero |
| LuSolve.BackwardExact | src/convert/als_decompose.cpp:100-106 | The same for the backward sweep and U·x = y |
| LuSolve.SolveExact | src/convert/als_decompose.cpp:87-107 | The answer solves A·x = b if and only if what the guards skipped cancels: the products left out of the forward sweep plus L times those left out of the backward sweep are zero in every row |
| LuSolve.SolveWithoutZeros | src/convert/als_decompose.cpp:100-106 | Without zeros in the swept vector the answer solves A·x = b |
| LuSolve.GuardBreaksSolution | src/convert/als_decompose.cpp:96-98 | Concrete failure: [[2,1],[1,2]] x = [1,0] comes out as [1/2, 0] |
| LuSolve.SkipsMayCancel | src/convert/als_decompose.cpp:96-102 | A product that matters is skipped and the system is still solved, so skipping nothing is not the condition |
| Ternary.TorchRoundIsHalfToEven | src/convert/als_decompose.cpp:112-130 | torch_round returns the nearest integer, the even one at a tie, and nothing else satisfies that |
| Ternary.ClampRoundIsBest | src/convert/als_decompose.cpp:132-138 | No digit in {-1, 0, 1} leaves a smaller error at a positive scale than clamp_round_ternary |
| Ternary.WindowCovers | src/convert/als_decompose.cpp:174-175 | Above the cut-off the search window contains floor(log2 rmax) |
| TermSearch.GreedyTerms | src/convert/als_decompose.cpp:158-199 | Every term is the first best exponent of its window, with rounded digits, fitted to what the earlier terms left |
| TermSearch.SearchExponent | src/convert/als_decompose.cpp:176-189 | The first exponent of the window with the smallest squared error |
| Decompose.Conservation | src/convert/als_decompose.cpp:158-199 | W = sum of a_t·T_t + R at every position after every term |
| Decompose.FittedShrinks | src/convert/als_decompose.cpp:164-196 | A term above the cut-off removes at least (3/4)·rmax² from the squared residual; one below changes nothing |
| Decompose.GreedyConverges | src/convert/als_decompose.cpp:158-199 | While no term is cut off, ‖R_m‖² ≤ (1 − 3/(4n))^m·‖W‖² |
| Decompose.GreedyStops | src/convert/als_decompose.cpp:170-173 | Once under the cut-off, the residual never changes again |
| Decompose.GreedyBound | src/convert/als_decompose.cpp:158-199 | For all weights: the geometric bound holds or every residual entry is under the cut-off |
| TermSearch.RefineTerms | src/convert/als_decompose.cpp:203-250 | Each update re-fits one term to the weights minus the other non-zero terms, in order, max_iter times |
| Refinement.RefineBeatsDropping | src/convert/als_decompose.cpp:208-247 | An update leaves the total squared error no larger than with that term removed |
| Refinement.FittedBeats | src/convert/als_decompose.cpp:226-246 | No digits at scale 0 or at any power of two from the window's low end upwards, above the window included, beat the re-fitted term |
| Refinement.RefineStepDescends | src/convert/als_decompose.cpp:208-247 | Above the cut-off with such an old scale the total error does not grow; below it the error is at most n·cut-off² |
| Refinement.RefineRunBound | src/convert/als_decompose.cpp:203-250 | The same bound over whole runs of updates |
| Grouped.FittedSpread | src/convert/als_decompose.cpp:169-196 | For weights with three different values: the fitted term is the one at the first best exponent of its window |
| RefinementFailures.CutoffRaisesError | src/convert/als_decompose.cpp:203-250 | Concrete failure, from greedy terms on: two exact terms for [c, c, c, 3c] with c = 2^-27 become one with error 4c² after one sweep, because the first is dropped at the cut-off |
| RefinementFailures.BelowWindowRaisesError | src/convert/als_decompose.cpp:203-250 | Concrete failure, from greedy terms on: for 40 weights 1/2, 13 of 5/4 and one 4 the second sweep raises the error from 7.0625 to 11.8125, because the old scale lies below the new window |
| BlockScales.AccumulateBlock | src/convert/als_decompose.cpp:274-290 | One pass over the rows leaves exactly the Gram matrix and the moments at the block's positions, which `BlockCells.PositionsExactly` pins down |
| BlockScales.HoldsIsSystem | src/convert/als_decompose.cpp:274-290 | The accumulated numbers are the Gram matrix A^T·A and A^T·w of the digits, entry by entry |
| BlockScales.FallbackExactly | src/convert/als_decompose.cpp:299-306 | The zero-scale fallback is taken if and only if all digits of the block are zero |
| LeastSquares.RidgeIsNonSingular | src/convert/als_decompose.cpp:292-303 | With a positive ridge the system always has one solution, whatever the columns |
| LeastSquares.SolutionMinimises | src/convert/als_decompose.cpp:252-254 | An exact solution minimises ‖w − Σ s_i·T_i‖² + ridge·‖s‖², with the exact gap to any other scales |
| LeastSquares.MinimisesExactly | src/convert/als_decompose.cpp:252-254 | Scales minimise the ridge objective over all scales if and only if they solve the system |
| BlockScales.SolveBlock | src/convert/als_decompose.cpp:292-310 | Factors and solves the ridge system of one block in place, zeros when it does not factor |
| BlockScales.FitBlockScales | src/convert/als_decompose.cpp:255-319 | Every block and every term gets the scale of its own block system, transposed as returned; what those scales minimise is stated by `BlockCells.FittedBlockIsBest` |
| BlockScales.BlockFitMinimises | src/convert/als_decompose.cpp:252-310 | The scales of a block minimise its objective if and only if they solve its system, that is, if it holds no digit or the products that the guards skipped cancel |
| BlockScales.FitBeatsRefinedScales | src/convert/als_decompose.cpp:252-310 | Under that condition they are no worse than the power-of-two scales left by refinement |
| BlockCells.PositionsExactly | src/convert/als_decompose.cpp:278-287 | The weights visited for block b are exactly those at p < out_f·in_f with (p mod in_f) / qk = b, every row included, each once and in order |
| BlockCells.FittedBlockIsBest | src/convert/als_decompose.cpp:252-310 | The scales of block b minimise Σ (W[r,c] − Σ s_i·T_i[r,c])² over all rows r and its columns c plus the ridge penalty if and only if the block holds no digit or the products that the guards skipped cancel |
| AlsPipeline.AlsDecompose | src/convert/als_decompose.cpp:327-342 | The three phases in sequence; the result pairs the refined digits with the fitted scales |
| AlsPipeline.DecompositionError | src/convert/als_decompose.cpp:327-342 | After greedy fitting and regular refinement the total error is at most the geometric bound or n·cut-off² |
| AlsPipeline.FittedBeatRefined | src/convert/als_decompose.cpp:327-342 | Under the condition of `BlockScales.BlockFitMinimises` the fitted scales of any block of a whole call are no worse than the refined ones |
| FittedError.FittedMatrixError | src/convert/als_decompose.cpp:327-342 | Over the whole matrix: where the skipped products cancel, the squared error with the fitted scales is at most the one refinement left plus the ridge penalties of the old scales |
| FittedError.FinalError | src/convert/als_decompose.cpp:327-342 | So the result of als_decompose has at most the geometric error of its number of terms, or n·cut-off², plus those penalties |
| ScaleFailures.FitLosesExactTerms | src/convert/als_decompose.cpp:327-342 | Concrete failure: for [3/4, 3/4, 5/4, 1/4] and two terms, any number of sweeps ends with 1·[1,1,1,0] + 1/4·[−1,−1,1,1], and the fitted scales are 2.75/(3 + ridge) and 0 |
| ScaleFailures.FittedIsWorse | src/convert/als_decompose.cpp:252-310 | There the objective is at least 11/48 with the fitted scales and under 10^-9 with the refined ones, which leave no error at all |
| AlsPipeline.ResultIsPackable | src/convert/als_decompose.cpp:327-342 | All digits stay in {-1, 0, 1} and the shapes fit the packer |
| AlsPipeline.DecomposedProduct | src/convert/als_decompose.cpp:327-342 | Decompose, pack, write, load, cache, multiply: the kernels return the product with the fitted matrix, when every layer loads back and the scales are exact as floats |
| Packing.BlockCodesHold | src/convert/als_decompose.cpp:371-383 | Element c of a packed block has the code of its digit; elements past the row read as digit zero |
| Packing.PackOneBlock | src/convert/als_decompose.cpp:365-387 | Writes 32 code bytes and the scale at the block's offset and changes nothing else |
| Packing.PackBlockInto | src/convert/als_decompose.cpp:356-390 | Writes all rows and blocks of a term, and only them |
| Packing.PackTerms | src/convert/als_decompose.cpp:402-422 | The container: number of terms, then each term with its length |
| Packing.TermReadsBack | src/loader.h:246-268 | parse_block_terms returns exactly the packed blocks, for every shape, and refuses them precisely when their length does not fit an int |
| Packing.SingleReadsBack | src/loader.h:415-419 | A single packed term reads back as its blocks, and is refused precisely when it has 2^31 bytes or more |
| Packing.ContainerReadsBack | src/loader.h:374-405 | The loader reads a container back exactly, and refuses it precisely when it has no term, more than 32, or terms of 2^31 bytes or more |
| Packing.ConvertedFileLoads | src/loader.h:437-518 | A written file that mixes float tensors, single terms and containers loads with exactly those weights and blocks if and only if every container has 1 to 32 terms, every term fewer than 2^31 bytes and no payload length is a multiple of 2^24 |
| RecordFile.SniffsOldExactly | src/loader.h:429-435 | A new-layout record is taken for an old one if and only if its length is a multiple of 2^24 |
| RecordFile.LargeHeadLooksOld | src/loader.h:433-435 | A raw 32768 x 4096 head is such a record |
| RecordFile.RecordReadsBack | src/loader.h:447-515 | One written record reads back as what the parser of its payload gives, malformed payloads included; one that looks old never reads back as its own kind (what payloads parse to: `RecordFile.RawReadsBack`, `Packing.SingleReadsBack`, `Packing.ContainerReadsBack`) |
| RecordFile.RecordsReadBack | src/loader.h:446-516 | A list of records reads back as given layers if and only if every payload means its layer and no length is a multiple of 2^24 |
| RecordFile.FileReadsBack | src/convert/export.cpp:248-269 | The same for whole files: loading inverts writing under exactly that condition |
| RecordFile.RecordLayout | src/convert/export.cpp:256-266 | Where every field of a written record lies: name length, name, out_f, in_f, layer type, data length, data |
| RecordFile.RawReadsBack | src/loader.h:364-371 | A raw payload loads as exactly the words it holds in memory order |
| RecordFile.OldRawReadsBack | src/loader.h:460-468 | So does a raw record of the old layout |
| FileStreams.ReadBlockTerms | src/loader.h:246-268 | Row by row and block by block, equal to the parser of record payloads, failure included |
| FileStreams.ReadContainerTerms | src/loader.h:386-405 | Length-prefixed terms, failing at the first truncated one |
| FileStreams.ReadPayload | src/loader.h:359-427 | All three layer types parse as the payload grammar says, for which `RecordFile.RawReadsBack`, `Packing.SingleReadsBack` and `Packing.ContainerReadsBack` give the meaning |
| BitWriter.MarkRows | src/loader.h:214-225 | Setting one bit or two per non-zero digit leaves the bitplane words of every row |
| FileStreams.UnpackCodes | src/loader.h:476-494 | Old 2-bit codes become the bitplane words of their digits |
| FileStreams.ReadOldTerms | src/loader.h:472-496 | The terms of an old-layout record in order |
| FileStreams.ReadBody | src/loader.h:459-515 | Both layouts of a record's payload |
| FileStreams.SkipPayload | distributed/shard_loader.h:144-190 | Seeks past a payload of either layout |
| FileStreams.LoadDecomposedLayers | src/loader.h:437-518 | The stream reader returns what the record grammar says, failure included |
| FileStreams.LoadDecomposedLayersRange | distributed/shard_loader.h:62-192 | The seeking reader returns what the range grammar says, failure included |
| FileStreams.FindLayerIndex | src/loader.h:157-168 | The first index with that name; fails exactly when there is none |
| FileStreams.WriteDecomposed | src/convert/export.cpp:248-269 | The writer emits exactly the file's bytes |
| ShardFile.SkipAgrees | distributed/shard_loader.h:144-190 | Where parsing a payload succeeds, seeking ends at the same byte |
| ShardFile.LoadRangeSelects | distributed/shard_loader.h:62-192 | On files the full loader accepts, the range loader returns exactly the kept records in file order, or fails when some layer number overflows an int |
| ShardFile.SelectKeepsLookup | src/loader.h:157-168 | A kept name refers to the same record in the slice as in the full list |
| ShardCoverage.NeededOnce | distributed/shard_loader.h:62-192 | Over a tiling plan a record is kept by exactly one shard if it belongs to a layer of the model or is lm_head, and by none otherwise |
| ShardCoverage.ShardsPartitionFile | distributed/shard_loader.h:62-192 | The slices read from one file are increasing lists of positions that hold every such record in exactly one place |
| LayerNames.LayerBaseParses | distributed/shard_loader.h:50-60 | Names built for layer i are attributed to layer i |
| LayerNames.LayerIndexExactly | distributed/shard_loader.h:47-62 | A layer number is read off exactly the names model.layers.<digits>.<anything> |
| LayerNames.NormIndexExactly | distributed/shard_loader.h:278-289 | And off exactly the names model.layers.<digits><suffix> for norm records |
| LayerNames.NormIsLayerRecord | distributed/shard_loader.h:278-288 | A per-head norm record of layer N is in range exactly when layer N is |
| ModelLoader.HeadDimAgreesExactly | distributed/shard_loader.h:265-277 | A shard derives the model's head dimension if and only if it owns layer 0 or the fix-up changes nothing |
| ModelLoader.ShardRepresents | distributed/shard_loader.h:207-328 | A loaded shard agrees with the model on configuration, embedding, head and all its layers if and only if that holds |
| LoadedWeights.ModelHoldsRecords | src/loader.h:760-794 | In a loaded model q_norm and k_norm of every layer are the weights of the last raw record of that layer and name, or those of the extra file without one; both layer norms are untouched and every other record is found under its name |
| LoadedWeights.ShardHoldsRecords | distributed/shard_loader.h:278-309 | The same for a shard and its slice of the file, and for its own layers and the whole file |
| LoadedWeights.BlockWeightsAreItsOwn | src/core/inference.cpp:326-356 | Block i computes with its own seven projections, looked up by name in their fixed order, and its own norms |
| Protocol.RequestParsesExactly | distributed/protocol.h:82-97 | A body is read as a request if and only if it starts with the packing of that request |
| Protocol.RequestLayout | distributed/protocol.h:66-79 | Where magic, position, input kind, count and data lie in a request |
| Protocol.ResponseLayout | distributed/protocol.h:99-108 | And in a reply |
| Protocol.ResponseParsesExactly | distributed/protocol.h:110-121 | The same for responses |
| Protocol.PackForwardRequest | distributed/protocol.h:67-79 | memcpy by memcpy, the buffer becomes the packing of its arguments |
| Protocol.UnpackForwardRequest | distributed/protocol.h:82-97 | Reads exactly what the grammar reads, or fails |
| Protocol.PackForwardResponse | distributed/protocol.h:99-108 | The same for responses |
| Protocol.UnpackForwardResponse | distributed/protocol.h:110-121 | The same for responses |
| Float32.TokensSurvive | distributed/worker.cpp:181-183 | Through float and back, ids below 2^24 are unchanged, negative ids stay negative and larger ones stay at least 2^24 or turn negative |
| FloatValues.ConversionTruncates | distributed/worker.cpp:181 | Converting a float below 2^31 to an int drops the fraction of the number its fields stand for |
| FloatValues.SmallIsExact | distributed/coordinator.cpp:298 | The float of an integer below 2^24 is that integer |
| FloatValues.LargeIsRounded | distributed/coordinator.cpp:298 | The float of a larger one is a multiple of its last place at most half of one away, the even one at a tie |
| Inference.ChainsAgree | src/core/inference.cpp:469-471 | Two models that agree on layers i to j − 1, on caches that agree there, compute the same state and touch nothing else |
| Inference.ChainSplits | src/core/inference.cpp:469-471 | Running blocks i to k is running i to j, then j to k |
| Inference.AppendExtendsHistory | src/core/inference.cpp:53-63 | Appending at the next position extends the history whatever the unused buffer held |
| Inference.StridedRead | src/core/inference.cpp:219-262 | The flat strided address of attention is the right element of the appended row, for keys and values |
| Inference.EmbeddedAt | src/core/inference.cpp:443-451 | Element j of the initial state is element j of the token's own embedding row, and of row 0 for ids outside the vocabulary |
| Inference.MaxElementIsFirst | src/core/inference.cpp:566-568 | Under any strict weak order the sampled index is the first of the largest logits |
| Devices.SampleArgmax | src/core/inference.cpp:566-568 | The sampling loop returns it: no logit is larger and every earlier one is smaller |
| CacheHistory.CachesHoldRun | src/core/inference.cpp:425-561 | From a fresh cache, after any tokens at positions 0 to p − 1, every layer's cache has length p and its strided reads are exactly the key and value rows projected at those positions in this run |
| CacheHistory.AttentionReads | src/core/inference.cpp:219-262 | So each read of attention at a position is that element of the row of its time |
| CacheHistory.HiddenIsCausal | src/core/inference.cpp:359-409 | Later tokens do not change the states of earlier positions |
| CacheHistory.ForwardIsReference | src/core/inference.cpp:425-561 | One token with caches gives the logits of recomputing everything from the tokens |
| CacheHistory.GenerateIsReference | src/core/inference.cpp:707-791 | Generation with key/value caches is generation without any, for every prompt and budget |
| Devices.KvCache.AppendRows | src/core/inference.cpp:53-63 | Writes one row at its position in the flat buffers, refuses positions outside |
| Devices.TransformerBlock | src/core/inference.cpp:359-409 | Updates the hidden buffer and only its own layer's cache in place |
| Devices.RunBlocks | distributed/worker.cpp:199-202 | The block loop is the chain of blocks |
| Devices.ModelForward | src/core/inference.cpp:425-561 | One token on the single device |
| Devices.GenerateTokens | src/core/inference.cpp:707-791 | The single-device loop yields the tokens of the specification, which are the greedy answer to the prompt |
| GreedyTokens.GenerateAnswers | src/core/inference.cpp:690-791 | The tokens generated are exactly the sequence in which each is the first largest logit after all tokens before it, up to the budget or the first token that ends generation |
| Devices.Worker.HandleForward | distributed/worker.cpp:158-224 | Parses, runs its blocks on its own cache and replies; errors exactly where the specification has none |
| Devices.Worker.HandleReset | distributed/worker.cpp:226-236 | A loaded worker gets an empty cache whatever the old one held |
| Devices.Coordinator.Pipeline | distributed/coordinator.cpp:200-228 | Carries one input through all workers, as bytes on every hop |
| Devices.Coordinator.ResetAll | distributed/coordinator.cpp:292-293 | Every cache is empty afterwards |
| Devices.Coordinator.GenerateTokens | distributed/coordinator.cpp:277-333 | The tokens depend on the shards, prompt and budget alone, never on earlier cache contents, and are the greedy answer of every model that the shards serve |
| GreedyTokens.ClusterAnswers | distributed/coordinator.cpp:277-333 | On a supported prompt a cluster generates exactly the greedy answer of the whole model |
| Cluster.PipelineRefines | distributed/coordinator.cpp:200-228 | From any worker on, the pipeline does what the remaining blocks and the head do, and every worker stays in step with the single device's caches |
| Cluster.StepRefines | distributed/coordinator.cpp:316-317 | One token: equal logits and caches; fails exactly when the id is outside the vocabulary or there is no lm_head record |
| Cluster.PrefillRefines | distributed/coordinator.cpp:295-299 | The prompt: equal caches position by position |
| Cluster.DecodeRefines | distributed/coordinator.cpp:312-332 | The two decoding loops produce the same tokens |
| Cluster.ClusterMatchesSingleDevice | README.md:71-74 | At temperature 0 the cluster's tokens equal the single device's if and only if nothing is asked for, or the prompt is nonempty, shorter than the cache and inside the vocabulary and an lm_head record exists |
| Cluster.LoadedPlan | distributed/shard_loader.h:207-328 | Shards loaded by a tiling plan form a valid plan if and only if there is one shard or the head-dimension fix-up is idle |
| Cluster.LoadedClusterMatches | distributed/coordinator.cpp:277-333 | From model files to tokens when the fix-up is idle or there is one shard: equal if and only if the prompt is supported |
| HeadDimSplit.LoadedClusterMatchesExactly | distributed/shard_loader.h:265-277 | For supported prompts and something to generate, shards loaded by a tiling plan give the model's tokens under every interpretation of the arithmetic if and only if there is one shard or the head-dimension fix-up is idle |
| HeadDimSplit.WideHeadsChangeTokens | distributed/shard_loader.h:265-277 | Concrete failure: with 16 heads of 128 over a hidden size of 1024 some interpretation gives other tokens on every cluster of two or more |
| CacheHistory.WorkersHoldRun | distributed/worker.cpp:158-224 | After any tokens through the pipeline every worker's caches hold exactly this run's rows for its own layers |
| CacheHistory.StepsAreRuns | distributed/coordinator.cpp:312-332 | Each step of the cluster's decoding loop is one more token of such a run |
| CacheHistory.ClusterIsReference | distributed/coordinator.cpp:277-333 | The cluster generates what inference without caches does if and only if the prompt is supported |
| Partitioner.SortByRemainder | distributed/partitioner.h:61-69 | A complete ordering by descending fraction, ties by index |
| Partitioner.HandOut | distributed/partitioner.h:48-72 | Floors plus one each: within one of the quota, the extra layers to the largest remainders, at a tie to the first node |
| Partitioner.LargestDonor | distributed/partitioner.h:77-81 | The first of the largest allocations above one, if any |
| Partitioner.EnsureOneEach | distributed/partitioner.h:74-87 | Never fails; empty nodes end with one layer, the others with at most what they had, the sum is kept, and who gave layers away ends with no fewer than anyone else except one more for a later node |
| Partitioner.Allocate | distributed/partitioner.h:36-89 | Fails exactly without nodes or with fewer layers than nodes; all of the above together, for any fractions whose remainder is at most the number of nodes |
| Partitioner.ComputeShards | distributed/partitioner.h:103-163 | Fails exactly on bad sizes or a node too small; otherwise nonempty shards tile [0, L) and fit, and their sizes are the largest-remainder rounding of L·memory/total, or of L/n without memory, once every node has a layer |
| Partitioner.RoundedShares | distributed/partitioner.h:118-132 | Rounding the quotas of the fractions is rounding L·memory/total in whole numbers, remainders compared as L·memory mod total |
| Partitioner.FitsExactly | distributed/partitioner.h:145-148 | The fit check holds if and only if memory times all layers covers the model size times the node's layers |
| Partitioner.AdoptsPlan | distributed/coordinator.cpp:380-388 | A pre-loaded plan is adopted if and only if it tiles the model with nonempty shards |
| BlockKernel.BuildCaches | src/loader.h:277-314 | Every term of the right size is cached block for block; others stay empty |
| BlockKernel.BlockShare | src/kernel_avx2.cpp:385-400 | A scaled block sum is that block's share of the dense row |
| BlockKernel.ScalarBlocks | src/kernel_avx2.cpp:369-404 | The scalar block kernel is the dense matrix-vector product, for every shape |
| StoredLayers.HeldProduct | src/kernel_avx2.cpp:369-404 | Over caches of packed terms, the dense product is W·x with W = Σ_t scale_t·T_t |
| StoredLayers.StoredProduct | src/loader.h:277-314 | End to end: pack, write, load, cache, multiply gives W·x for every ternary layer, whatever float tensors and other layers are in the file |
| BitOps.PextAlternate | src/kernel_avx2.cpp:341-342 | Extracting every second bit |
| FairyFuse.AscendingCode | src/kernel_avx2.cpp:293-338 | After reversing each byte, element k's code sits in bits 2k and 2k + 1 |
| FairyFuse.DecodeMasks | src/kernel_avx2.cpp:331-344 | Added are exactly the elements with code 2, subtracted exactly those with code 0 |
| FairyFuse.ChunkLanes | src/kernel_avx2.cpp:346-352 | The masked load touches no element past the chunk and leaves zero there |
| FairyFuse.FairyFuseBlocks | src/kernel_avx2.cpp:293-363 | The AVX-512 kernel is a dense product in which code 3 counts as 0 |
| FairyFuse.DifferenceIsStray | src/kernel_avx2.cpp:369-404 | Scalar and AVX-512 rows differ by exactly the code-3 weights |
| FairyFuse.KernelsAgreeExactly | src/kernel_avx2.cpp:293-404 | The two kernels agree on every input if and only if the code-3 weights of every in-range element cancel; padding codes never matter |
| FairyFuse.TernaryCodesCancel | src/kernel_avx2.cpp:279-281 | They do when all in-range codes are 0, 1 or 2 |
| Int8Kernel.PeakMagnitude | src/kernel_avx2.cpp:144-159 | Eight lanes plus scalar tail give the largest magnitude |
| Int8Kernel.QuantizeActivations | src/kernel_avx2.cpp:143-190 | The steps are in [−127, 127], each less than one step away and never past the activation; the clamp never acts |
| Int8Kernel.PairsExact | src/kernel_avx2.cpp:261-262 | No 16-bit pair sum saturates |
| Int8Kernel.StepExact | src/kernel_avx2.cpp:257-264 | 32 biased products are added without 16- or 32-bit overflow |
| Int8Kernel.BiasCancels | src/kernel_avx2.cpp:246-266 | Subtracting 128 times the digit sum restores the signed dot product |
| Int8Kernel.BlockDotInt8 | src/kernel_avx2.cpp:246-269 | For every block width up to 128 the biased dot is the plain signed dot |
| Int8Kernel.Int8Blocks | src/kernel_avx2.cpp:213-275 | The output is the dense product of the quantised activations divided by the activation scale |
| Int8Kernel.RowError | src/kernel_avx2.cpp:225-272 | act_scale times the row sum is within act_scale times the row sum of the magnitudes of w_scale·digit of the scalar kernel's row |
| Int8Kernel.RescaleExactly | src/kernel_avx2.cpp:225-272 | Multiplying by 1/act_scale equals dequantising if and only if the sum is zero or act_scale is 1 |
| Int8Kernel.DequantisesExactly | src/kernel_avx2.cpp:213-275 | The kernel returns the dequantised product if and only if all row sums are zero or the largest magnitude is 127 or below 10^-10 |
| Int8Kernel.OneComesOutWrong | src/kernel_avx2.cpp:213-275 | Concrete failure: 1 times 1 is 1 in the scalar kernel and 16129 here |
| BitKernels.ScalarKernel | src/kernel_scalar.cpp:7-33 | Term by term: the product with Σ 2^alpha·T, dead terms skipped |
| BitKernels.AddChunk | src/kernel_avx2.cpp:78-91 | Masked add and subtract of one chunk add exactly its digits times its lanes |
| BitKernels.AddWord | src/kernel_neon.cpp:35-118 | One word in two or four chunks, tail mask included, whatever memory lies behind the input |
| BitKernels.VectorKernel | src/kernel_avx2.cpp:47-136 | Row by row with per-lane accumulators: the same product, for every in_f |
| BitKernels.LiveProduct | src/dispatcher.cpp:46-58 | Dropping terms with exponent −128 does not change the product |
| BitKernels.TernaryLinear | src/dispatcher.cpp:60-96 | All three architectures return the same product of the first num_terms terms, at most 32, dead ones left out |
| BitKernels.WordsGiveDigits | src/model.h:31-43 | The bit tests of the kernels recover the digits the words were built from |
| BitKernels.LoadedDigits | src/loader.h:472-496 | So they see exactly the digits of an old-layout record |
| OldLayout.OldRecordLoads | src/loader.h:459-497 | An old-layout record loads with the exponents it stores, and the kernels find exactly the digits its two-bit codes 0, 2 and 3 stand for, at every row and column |
| OldRecords.NoTermsRightExactly | src/dispatcher.cpp:46-67 | With num_terms 0 the result is zero, which is the stored product on every input if and only if the stored matrix is zero |
| OldRecords.OldRecordYieldsZeros | src/loader.h:459-497 | Every old-layout record with terms loads with num_terms 0 and so multiplies to zero |
| OldRecords.OneWeightIsLost | src/loader.h:459-497 | Concrete failure: the record of the matrix [1] loads, and its product with x is 0 |
| Tq1.DecodeEncoded | src/model.h:49-67 | Decoding five trits inverts encoding them |
| Tq1.EncodeDecoded | src/model.h:49-67 | Encoding inverts decoding if and only if the byte is below 243 |
| Tq1.EncodeFive | src/model.h:49-56 | The Horner loop computes that encoding and fits a byte |
| Tq1.DecodeByte | src/model.h:58-66 | The division loop computes that decoding |
| Tq1.DecodeRow | src/loader.h:577-592 | 120-element blocks at their byte offsets give the row's digits |
| Tq1.RepackBlock | src/loader.h:600-615 | Or-ing codes into zeroed bytes leaves each digit's code in its 128-column block |
| Tq1.BlockScale | src/loader.h:616-622 | The scale computed on loading is always 1 |
| Tq1.ConvertLayer | src/loader.h:560-643 | Blocks and bitplane words are built from the same decoded digits, and num_terms is 1 |
| Tq1.SameMatrix | src/loader.h:560-643 | Base-3 bytes, 2-bit blocks and bitplane words denote the same ternary matrix at every position |
| Tq1RoundTrip.EncodedLayerLoads | src/loader.h:577-592 | Encoding a ternary matrix as a TQ1 payload and loading it gives the same matrix at every row and column, whatever the scales say |
| RateLimiter.Limiter.Allow | src/server/handlers.cpp:102-121 | Decides as one map that never forgets an admission would: shards, popping and eviction change no decision |
| RateLimiter.RefusedExactly | src/server/handlers.cpp:108-110 | A request is refused if and only if the 20th last admission of its address is at most 60 s old |
| RateLimiter.AdmissionsSpread | src/server/handlers.cpp:86-87 | Any 21 consecutive admissions of one address span more than 60 s |
| RateLimiter.LateRequestSlipsThrough | src/server/handlers.cpp:102-110 | Concrete failure when clock readings are out of order: a late request with an early reading is admitted against the rule |
| RateLimiter.PoppedCounts | src/server/handlers.cpp:107-110 | The popped deque's length is the number of admissions in the window |
| RateLimiter.EvictEmpty | src/server/handlers.cpp:114-119 | Erases exactly the addresses with an empty deque |
| RateLimiter.AddressesStay | src/server/handlers.cpp:112-119 | An address is in its shard if and only if it was ever seen, so the cap frees nothing |
| Sha256.ProcessBlock | distributed/node.cpp:103-126 | One block: the compression function of section 6.2.2 of FIPS 180-4 |
| Sha256.HashResumes | distributed/node.cpp:135-138 | Hashing may stop and resume at any block boundary |
| Sha256.AbsorbMore | distributed/node.cpp:130-140 | After every read the carry is the unfinished block, under 64 bytes, and the rest is absorbed |
| Sha256.PadCarry | distributed/node.cpp:142-145 | Adds the marker, the fewest zeros and the bit length (section 5.1.1) |
| Sha256.FinishAbsorbs | distributed/node.cpp:142-146 | Padding ends on a block boundary and nothing is left over |
| Sha256.HashFile | distributed/node.cpp:96-146 | For every file and every buffer size: the digest of the padded message |
| Sha256.HashText | distributed/node.cpp:148-153 | 64 hexadecimal digits, most significant first |
| Sha256Example.DigestOfAbc | distributed/node.cpp:96-146 | The digest of "abc" is the published one, which fixes every constant, rotation and shift of the hash |
| Sha256Example.TextOfAbc | distributed/node.cpp:148-153 | Its text starts with the hexadecimal digits of its first word |

## Left out

- AlsPipeline.DecompositionError: does not cover updates whose old scale lies below the search window, because there the error can grow (`RefinementFailures.BelowWindowRaisesError`).
- AlsPipeline.FittedBeatRefined: only under the condition of `BlockScales.BlockFitMinimises`, because without it the fit can be worse (`ScaleFailures.FittedIsWorse`).
- BlockScales.FitBeatsRefinedScales: under the same condition for the same reason.
- FittedError.FittedMatrixError: under the same condition in every block.
- FittedError.FinalError: under that condition and for regular refinement, for the two reasons above.
- Packing.PackOneBlock: blocks of 128 columns, the width that the converter and the loader use.
- Packing.PackBlockInto: the same width, and one scale per block, as fit_block_scales returns them.
- Packing.PackTerms: the same.
- RecordFile.FileReadsBack: a raw payload whose length is no multiple of 4 counts as a failed load, because the code copies it past the end of the weights.
- FileStreams.ReadOldTerms: a short read is a failed load, where the code goes on with zeros or leftovers until a check fails.
- FileStreams.ReadBody: short reads fail.
- FileStreams.SkipPayload: seeking past the end leaves nothing to read.
- FileStreams.LoadDecomposedLayers: short reads fail.
- FileStreams.LoadDecomposedLayersRange: short reads fail.
- Cluster.ClusterMatchesSingleDevice: does not cover models with a missing block record, more than 2^24 tokens in the vocabulary, or replies that HTTP loses; temperature above 0 is excluded because the penalties differ (distributed/coordinator.cpp:323, src/core/inference.cpp:786-787).
- Cluster.LoadedClusterMatches: assumes an idle fix-up or one shard; `HeadDimSplit.LoadedClusterMatchesExactly` has the other half.
- GreedyTokens.GenerateAnswers: for models with all block records, and logits without NaNs, whose comparison is no strict weak order.
- GreedyTokens.ClusterAnswers: the same.
- HeadDimSplit.LoadedClusterMatchesExactly: a vocabulary of one token leaves nothing to tell apart.
- Int8Kernel.RowError: bounds the sum before the last multiplication, because that multiplication is by the wrong factor.
- Tq1.DecodeRow: does not model reads past a truncated payload, which the loader does not check.
- Tq1.ConvertLayer: the same.
- RateLimiter.Limiter.Allow: assumes that requests of one address are handled in the order of their clock readings, which are taken before the lock, because it fails otherwise (`RateLimiter.LateRequestSlipsThrough`).
- Sha256.HashFile: reads fall short only at the end of the file, as for the file streams used.
- Rounding of floats, NaNs and infinities in numeric code: claims there are over the reals; log2, ldexp and sqrt are exact.
- exp, sin, softmax, RoPE, normalisation and the attention arithmetic: uninterpreted in `Inference.Engine`; only what is read from the cache is modelled.
- Conversion of a float outside the 32-bit range to int: taken as the x86 indefinite value.
- Integer widths of shapes: products of dimensions are unbounded, where the code uses int or size_t; payloads of 2^32 bytes or more and dimensions that are negative as an int are excluded. The int cast of block data lengths is modelled.
- The flat double matrix of the LU code is a two-dimensional array, and std::stable_sort is an insertion sort.
- Raw row pointers of the block cache and copies of LayerData: offsets into the caches instead; the lazy and the eager build are one method.
- Several threads: parallel rows are independent, handlers run one at a time under their locks.
- TblkIndexCache, which remembers name lookups per layer list, and the debug output.
- Sampling above temperature 0, repeat penalties, snapshots, MoTE layers, GGUF files, model_extra.bin parsing, safetensors and half-precision conversion.
- HTTP, sockets, discovery, process control, JSON, command line and web interface.
- load_decomposed_layers and pack_als_block, near-duplicates of modelled code; src/kernel_dispatch.h and legacy/ for the same reason.

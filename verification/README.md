# Verified model of `model-weights`

A Dafny model of the crate that loads, transforms, caches and delivers model weights, with proofs
of the properties its documentation and tests promise. Run `dafny verify dfyconfig.toml`.

The model has four parts.

**Tensor operation graphs.** `Shapes`, `Strides`, `Facts` and `Buffers` give tensor descriptions
their meaning: a byte buffer under a description denotes a logical tensor. `Operations` defines
each operation on logical tensors and its shape inference; `Kernels`, `Concatenation`, `Ohwi`,
`OhwiSimd` and `OhwiPermute` are the copying kernels, slow and fast, as loops over arrays, proved
against that meaning. `Inference` says exactly which
arguments each operation accepts. `Graphs` is the builder and the wire form, `Evaluation` the naive
recursive meaning of a graph, and `NodeBytes` that meaning as relations between bytes. `Liveness`, `GraphSchedule` and `Scratch` are the use counts, early removal,
sharing and scratch estimate, and `ScratchDemand` says from the graph alone what those numbers are;
`NodeExecution`, `Execution` and `HostExecutor` are the interpreter,
proved to return the evaluation and to have no internal failure. `EmptyTensors` has the inputs on
which equal routes take different errors.

**Preparation pipeline.** `Budget` has the mutable budget, permits, the context with additional
resources and the dispatch window as classes. `Pipeline` is the whole pipeline as interleaved steps
of a dispatcher, any number of workers and a coordinator over two bounded channels, with an
invariant over every reachable state.

**Cache.** `CacheStore` is publication and recovery over a directory of names; `CacheLookup` a
lookup interleaved with a replacement. `PreparedAddress`, `Materialize` and `PreparedCache` are
the materializer over a shared cache, compared with the materializer without one, and
`GraphMaterialization` ties its host execution to the graph executor.

**Formats and identities.** `GgufReader` and `GgufMetadata` are the buffered reader and the
recursive metadata parser with its encoder; `Alignment`, `Packing`, `SpanLayout`, `GgufTensors` and
`Safetensors` decide global layouts, and `GgufFile` is the whole GGUF file from its bytes to its
records; `Identity` the hash framing, keys, snapshots and hexadecimal
text; `Aliases`, `Overlay`, `OverlayPlans`, `OverlayOrder` and `OverlayIdentity` the alias graph, plan
composition and per-target identity. `Checked`, `FiniteSets`, `Hashing`, `LittleEndian` and `ResourceWeights`
are shared helpers.

Hashing is an injective function given from outside, UTF-8 validity and provider computations are
function parameters, and time, staleness, short reads and thread scheduling are nondeterministic.

## Where code and expectation differ

- The scratch estimate is documented as an upper bound (operation.rs:1023-1030). With a node that
  does not reach the output and a provider that hands its source through to the output, the
  reported peak exceeds it, and the check at materialize.rs:1278-1283 would refuse a correct run:
  `Scratch.DeadNodeExceedsEstimate`. `Scratch.ReportedWithinEstimateExactly` says exactly for which
  graphs the bound holds: those whose one run with reuse along the chain under the output stays
  within the estimate. It holds in particular when every node reaches the output, and with the
  output length added it always holds.
- A lookup under trusted metadata can pair the old envelope with the new payload when a whole
  replacement falls between its two file reads: it can happen exactly when the new
  payload passes the old envelope's checks (`CacheLookup.MixableExactlyWhenPayloadFits`), and
  `CacheLookup.SizeValidationCanMix` shows one.
- Empty tensors with huge dimensions take different errors on different routes: the vector 3x3
  path checks the byte length of one output channel even when there are none
  (`OhwiPermute.BuildOihwToOhwiIfSupported`), contiguous concatenation the inner byte length
  (`Concatenation.BuildContiguousConcat`), row-major strides their trailing products
  (`Shapes.ContiguousStridesLoop`), and packed GGUF storage the packed length of one row
  (`GgufTensors.PackedStorageAccepts`). Each contract states the exact condition, a lemma shows that
  a non-empty tensor never meets it, and `EmptyTensors` has one input for each.

## Model

| member | source | states |
|---|---|---|
| `Shapes.CoordsOfLinear` | crates/model-weights/src/operation.rs:2487-2500 | Row-major linear index and coordinate vector invert each other on every in-range coordinate, for any rank |
| `Shapes.LinearOfCoords` | crates/model-weights/src/operation.rs:2487-2500 | The other direction: every index below the element count has one coordinate vector that linearizes back to it |
| `Shapes.CoordinateByDivMod` | crates/model-weights/src/operation.rs:2487-2500 | Dividing by the row stride and reducing by the dimension, as the kernels do, reads the same coordinate as the mixed-radix expansion |
| `Shapes.CheckedElementsIsProduct` | crates/model-weights/src/operation.rs:2835-2841 | The checked product is the element count; without a zero dimension it fails exactly when the count exceeds 64 bits |
| `Shapes.CheckedElementsExactly` | crates/model-weights/src/operation.rs:2835-2841 | For every shape, with zero dimensions or without, the checked product succeeds exactly when every product of leading dimensions fits, and is then the element count |
| `Shapes.ContiguousStridesLoop` | crates/model-weights/src/operation.rs:2843-2854 | The reverse loop yields row-major strides, and errs exactly when the rank or a trailing product does not fit |
| `Shapes.NonEmptySuffixesFit` | crates/model-weights/src/operation.rs:2843-2854 | Strides of a non-empty shape whose count fits never overflow, so that error needs an empty tensor |
| `Strides.ValidateDenseStridesLoop` | crates/model-weights/src/operation.rs:2856-2884 | The sorted-pair loop computes the dense acceptance predicate, errors included |
| `Strides.ValidateStorageStridesLoop` | crates/model-weights/src/operation.rs:2886-2926 | The sorted-pair loop computes the storage acceptance predicate, errors included |
| `Strides.DenseAcceptanceIsBijection` | crates/model-weights/src/operation.rs:2856-2884 | Dense strides are accepted if and only if coordinate offsets are a bijection onto [0, elements), for any rank and stride order |
| `Strides.StorageAcceptanceIsSound` | crates/model-weights/src/operation.rs:2886-2926 | Accepted storage strides give every coordinate its own offset, below the storage element count |
| `Strides.StorageAcceptedExactly` | crates/model-weights/src/operation.rs:2886-2926 | Storage strides of a tensor with elements are accepted if and only if the stride of every varying axis exceeds everything the axes of no larger stride reach, and the furthest coordinate lies inside the allocation: padding and gaps are allowed, and the order of equal strides does not matter |
| `Strides.RowMajorIsAccepted` | crates/model-weights/src/operation.rs:133-153 | Row-major strides pass both checks, so contiguous facts are never refused for their strides |
| `Facts.ValidFactsGuarantee` | crates/model-weights/src/operation.rs:60-124 | What checked construction guarantees every kernel: counts in 64 bits, matching ranks, injective in-range offsets, exact byte length |
| `Facts.NewFactsIsValid` | crates/model-weights/src/operation.rs:60-124 | A constructed description is valid and carries its arguments |
| `Facts.FactsAcceptedExactly` | crates/model-weights/src/operation.rs:60-124 | Which arguments construction accepts, under a contiguous or a custom layout: equal ranks, counts that fit, a one-to-one logical order, storage strides that keep elements apart inside the allocation, row-major order when contiguous, and the byte length of the storage |
| `Facts.ContiguousFactsAccepted` | crates/model-weights/src/operation.rs:133-153 | Contiguous facts of a non-empty shape are refused only when a size does not fit |
| `Facts.ViewDeterminesBytes` | crates/model-weights/src/operation.rs:1889-1910 | Two buffers with the same logical view and zero padding are equal byte for byte |
| `Facts.ScatteredIsStored` | crates/model-weights/src/operation.rs:2129-2175 | Scattering a row-major element list to strided positions of a zeroed buffer stores exactly that tensor |
| `Buffers.CopyElement` | crates/model-weights/src/operation.rs:2430-2461 | One bounds-checked element copy: succeeds exactly inside both buffers and changes that element only |
| `Kernels.AllocateTensor` | crates/model-weights/src/operation.rs:1889-1910 | A fresh zeroed buffer of the described length |
| `Kernels.StorageCopyOffsets` | crates/model-weights/src/operation.rs:2129-2175 | On accepted facts the checked offset sums never overflow and equal the two strided offsets |
| `Kernels.PermuteOffsets` | crates/model-weights/src/operation.rs:2080-2127 | The checked sums of a logical permutation equal the strided offsets of the permuted coordinate, without overflow |
| `Kernels.SliceOffsets` | crates/model-weights/src/operation.rs:2349-2400 | The checked sums of a slice equal the strided offsets of the shifted coordinate, without overflow |
| `Kernels.ConcatOffsets` | crates/model-weights/src/operation.rs:1912-1999 | The checked sums of a concatenation equal the offsets local to the chosen input, without overflow |
| `Kernels.ExecuteStorageCopy` | crates/model-weights/src/operation.rs:2129-2175 | Stores the source's logical tensor in the target's physical layout with zero pad tails; fails exactly on a wrong length, a different shape or strides that do not fit |
| `Kernels.ExecutePermuteBytes` | crates/model-weights/src/operation.rs:2080-2127 | Stores the permuted (logical mode) or the same (storage mode) logical tensor, with the exact failure condition |
| `Kernels.ExecuteSliceBytes` | crates/model-weights/src/operation.rs:2349-2400 | Stores the sub-tensor at the ranges; fails exactly on a wrong input length |
| `Kernels.StoredBytesAreUnique` | crates/model-weights/src/operation.rs:2129-2175 | Any two forms that store the same tensor under the same facts return the same bytes, which makes fast and slow forms comparable |
| `Concatenation.ExecuteConcatBytes` | crates/model-weights/src/operation.rs:1912-1999 | The generic kernel stores the logical concatenation for any rank, axis, strides and input count, zero-length axes included |
| `Concatenation.AppendByteRangeTiled` | crates/model-weights/src/operation.rs:2402-2428 | Tiled appending adds exactly the requested byte range, or errs when it lies outside the source |
| `Concatenation.AppendRows` | crates/model-weights/src/operation.rs:2001-2078 | Row-by-row appending yields the interleaving of the inputs' outer rows |
| `Concatenation.InterleavedIsConcat` | crates/model-weights/src/operation.rs:2001-2078 | Interleaved rows of canonical inputs are the logical concatenation |
| `Concatenation.BuildContiguousConcat` | crates/model-weights/src/operation.rs:2001-2078 | The contiguous fast form stores the same concatenation as the generic kernel; it differs only by an overflow error that needs an empty output |
| `Concatenation.NonEmptyInnerFits` | crates/model-weights/src/operation.rs:2001-2078 | That overflow error cannot occur for a non-empty output |
| `Operations.ValidatePermutationLoop` | crates/model-weights/src/operation.rs:2928-2950 | The seen-flag scan accepts exactly the permutations of the axes |
| `Operations.InferredFactsAreValid` | crates/model-weights/src/operation.rs:2551-2561 | Every inferred output of every operation on valid facts is valid |
| `Operations.SplitFactsAreContiguous` | crates/model-weights/src/operation.rs:2737-2765 | Output k of a split is contiguous with the length of range k on the axis, and every range is nonempty and inside the dimension |
| `Operations.SplitRangesAreOrdered` | crates/model-weights/src/operation.rs:2737-2765 | Accepted split ranges are in ascending order and do not overlap |
| `Inference.PackedExactly` | crates/model-weights/src/operation.rs:133-153 | Contiguous facts exist exactly for a contiguous representation of a shape whose products and byte length fit, and are then row-major |
| `Inference.SliceAccepted` | crates/model-weights/src/operation.rs:2719-2735 | A slice is accepted if and only if there is one range inside each axis and the size fits; the output dimension is end minus start on each axis |
| `Inference.SplitAccepted` | crates/model-weights/src/operation.rs:2737-2765 | A split is accepted if and only if its ranges are non-empty, inside the axis, ascending and without overlap, gaps allowed; output k has the length of range k on the axis and the input's other dimensions |
| `Inference.ReshapeAccepted` | crates/model-weights/src/operation.rs:2767-2785 | A reshape is accepted if and only if the input is canonical, the element counts agree and the new shape fits |
| `Inference.PrepareAccepted` | crates/model-weights/src/operation.rs:2787-2823 | A preparation is accepted if and only if its source is the canonical input's representation, its target is contiguous and it pins the target's byte length of the same shape |
| `Inference.LogicalPermuteAccepted` | crates/model-weights/src/operation.rs:2666-2717 | A logical permutation is accepted if and only if the order is a permutation of the axes and the size fits; output dimension k is input dimension order[k], row-major |
| `Inference.StoragePermuteAccepted` | crates/model-weights/src/operation.rs:2666-2717 | A storage permutation is accepted if and only if the order is a permutation, the identity for a contiguous target, and the size fits; the logical tensor stays and axis order[k] gets the row-major stride of physical axis k |
| `Inference.PadAccepted` | crates/model-weights/src/operation.rs:2563-2611 | A padding is accepted if and only if the layout is custom, no physical dimension is below its logical one, at least one is above, and the size fits; strides as for a storage permutation |
| `Inference.ConcatAccepted` | crates/model-weights/src/operation.rs:2620-2664 | A concatenation is accepted if and only if there are two or more inputs of one dtype that agree off the axis and their lengths sum and fit |
| `Inference.OtherAritiesRefused` | crates/model-weights/src/operation.rs:2551-2618 | Every other operation takes exactly one input |
| `Inference.ReorderedIsSpaced` | crates/model-weights/src/operation.rs:2563-2717 | Row-major strides of a physical shape that covers the logical one keep all elements apart in any axis order, so construction never refuses them |
| `Operations.UnaryMeaningIsDescribed` | crates/model-weights/src/operation.rs:2563-2823 | The logical result of a pad, permute, slice or reshape has the shape inference announced |
| `Operations.SplitOfConcat` | crates/model-weights/src/operation.rs:1756-1801 | Splitting a concatenation at the boundaries of its inputs gives back each input |
| `Operations.PermuteUndone` | crates/model-weights/src/operation.rs:2080-2127 | Permuting by an order and then by one that undoes it gives the tensor back |
| `Ohwi.BuildElements` | crates/model-weights/src/operation.rs:2275-2347 | The tiled OIHW to OHWI builder writes the element of (o, i, s) at (o, s, i) for every size and width |
| `OhwiSimd.NetworkTransposes` | crates/model-weights/src/operation_simd.rs:378-443 | The unpack network transposes: lane c of column s is element s of channel c |
| `OhwiSimd.CopyScalarRow` | crates/model-weights/src/operation_simd.rs:297-335 | The scalar row copy finalizes one row for a channel range and leaves the other rows alone |
| `OhwiSimd.StoreColumns` | crates/model-weights/src/operation_simd.rs:253-273 | A block store finalizes eight rows for sixteen channels and nothing else |
| `OhwiSimd.CopyBlock` | crates/model-weights/src/operation_simd.rs:253-295 | A block plus its scalar ninth row finalizes all nine rows for sixteen channels |
| `OhwiSimd.PermuteScalar` | crates/model-weights/src/operation_simd.rs:120-143 | The scalar 3x3 form computes the reordered elements for every channel count |
| `OhwiSimd.PermuteAvx2` | crates/model-weights/src/operation_simd.rs:157-201 | The vector form, with its chunks and tails, computes the very same elements for every channel count |
| `OhwiSimd.Permute3x3` | crates/model-weights/src/operation_simd.rs:63-118 | The dispatch returns the reordered bytes on either processor path, and states exactly when it errs |
| `OhwiPermute.OhwiBytesStore` | crates/model-weights/src/operation.rs:2177-2273 | The reordered bytes store the storage permutation [0,2,3,1] of the input's logical tensor |
| `OhwiPermute.BuildOihwToOhwiIfSupported` | crates/model-weights/src/operation.rs:2177-2273 | Applies exactly to its guarded case, agrees there with the generic storage copy, and errs exactly on a wrong length or an unfitting channel of an empty tensor |
| `OhwiPermute.NonEmptyChannelFits` | crates/model-weights/src/operation.rs:2177-2273 | The vector path's extra overflow error cannot occur for a non-empty tensor |
| `Graphs.GraphBuilder.AddInput` | crates/model-weights/src/operation.rs:795-811 | Refuses only a repeated name or too many inputs, and otherwise appends the input |
| `Graphs.GraphBuilder.AddOperation` | crates/model-weights/src/operation.rs:821-861 | Succeeds exactly when the extended graph is valid, and appends the node with its inferred facts |
| `Graphs.GraphBuilder.Build` | crates/model-weights/src/operation.rs:868-880 | Returns a valid graph exactly when the output reference exists |
| `Graphs.FromWire` | crates/model-weights/src/operation.rs:1330-1348 | Deserialization accepts exactly the serialized forms of valid graphs and returns the graph that was serialized |
| `Evaluation.NodeIsTyped` | crates/model-weights/src/operation.rs:821-861 | In a valid graph each node's inputs exist before it and its facts are those inferred from them |
| `Evaluation.OutputInputAlias` | crates/model-weights/src/operation.rs:975-992 | The chain walk answers the declarative alias question |
| `Evaluation.ChainIsAlias` | crates/model-weights/src/operation.rs:975-1021 | A value from which reshapes and fact-keeping identity permutations lead to an external input aliases that input |
| `Evaluation.AliasHasChain` | crates/model-weights/src/operation.rs:975-1021 | and the query finds an input only when such a chain leads there |
| `Evaluation.AliasMeaning` | crates/model-weights/src/operation.rs:994-1021 | A node classed as metadata-only means its input bytes unchanged under the output facts |
| `Liveness.LivenessSchedule.Create` | crates/model-weights/src/operation.rs:1415-1434 | Adds an allocation to live bytes and peak, or a limit error, with no other change |
| `Liveness.LivenessSchedule.Insert` | crates/model-weights/src/operation.rs:1436-1453 | Records a value as a holder of its allocation and adds one reference |
| `Liveness.LivenessSchedule.Consume` | crates/model-weights/src/operation.rs:1471-1483 | Takes one use and removes the value with its last one |
| `Liveness.LivenessSchedule.Remove` | crates/model-weights/src/operation.rs:1494-1519 | Drops a holder and frees the allocation with its last holder |
| `Liveness.LivenessSchedule.Scratch` | crates/model-weights/src/operation.rs:1521-1531 | Peak less the output's own allocation |
| `Liveness.FreshIsAccounted` | crates/model-weights/src/operation.rs:1415-1453 | A fresh allocation keeps live bytes equal to the sum of live allocations and references equal to live holders |
| `Liveness.SharedIsAccounted` | crates/model-weights/src/operation.rs:1436-1453 | A sharing value keeps the same accounting |
| `Liveness.RemoveIsAccounted` | crates/model-weights/src/operation.rs:1494-1519 | Removing a live value never fails and keeps the accounting: no underflow, no missing allocation |
| `GraphSchedule.NewSchedule` | crates/model-weights/src/operation.rs:1385-1413 | Counts every use of every value and of the output, and maps external inputs |
| `GraphSchedule.ConsumeRemovesLast` | crates/model-weights/src/operation.rs:1464-1469 | Consuming a node's inputs, repetitions included, never fails and removes exactly those without a use left |
| `GraphSchedule.RemoveUnusedRemoves` | crates/model-weights/src/operation.rs:1485-1492 | Cleaning up unused outputs never fails and removes exactly them |
| `GraphSchedule.NodeStepTracks` | crates/model-weights/src/operation.rs:1210-1284 | One node keeps the accounting and the exact set of live values; its only error is a 64-bit limit |
| `GraphSchedule.RunTracks` | crates/model-weights/src/operation.rs:1384-1531 | Over every run of a valid graph: live bytes, reference counts and liveness of every value with remaining uses, for any choice of source reuse |
| `Scratch.EstimateHostScratchBytes` | crates/model-weights/src/operation.rs:1034-1080 | The estimating loop computes the reported scratch of the run in which no provider reuses its source (what that is in buffers and transient bytes: `ScratchDemand.EstimateIsDemand`) |
| `Scratch.RunCoupled` | crates/model-weights/src/operation.rs:1034-1080 | Wherever the estimate is defined every run with reuse is, step by step, with live bytes and peak no higher |
| `Scratch.PeakWithinEstimateAndOutput` | crates/model-weights/src/operation.rs:1034-1080 | Unconditionally, live plus transient bytes of every run stay within the estimate plus the output length |
| `Scratch.ChainReuseIsWorst` | crates/model-weights/src/operation.rs:1521-1531 | No choice of source reuse reports more than the larger of the estimate and the run in which exactly the preparations on the chain under the output share their source |
| `Scratch.ReportedWithinEstimateExactly` | crates/model-weights/src/materialize.rs:1278-1283 | Every choice of source reuse stays within the estimate if and only if that one chain run does, which can be simulated before anything executes |
| `Scratch.ReportedWithinEstimateWhenAllReach` | crates/model-weights/src/materialize.rs:1278-1283 | When every node reaches the output, the scratch integrity check of the materializer cannot fire |
| `Scratch.DeadNodeExceedsEstimate` | crates/model-weights/src/materialize.rs:1278-1283 | With a dead node it can: a valid graph whose reported peak is 1 and whose estimate is 0 |
| `ScratchDemand.EstimateIsDemand` | crates/model-weights/src/operation.rs:1034-1080 | The estimate is the greatest need of any node, less the returned buffer: a node needs the bytes of the buffers its outputs and the values still to be used lie in, plus its provider's declared scratch |
| `ScratchDemand.ReportedIsDemand` | crates/model-weights/src/operation.rs:1521-1531 | Every run reports the same with the sharing its providers chose, without transient scratch where the source was handed back |
| `ScratchDemand.RunDemands` | crates/model-weights/src/operation.rs:1384-1531 | After k nodes the recorded peak is the greatest need of those nodes |
| `ScratchDemand.ReportedIsDefinedExactly` | crates/model-weights/src/operation.rs:1384-1531 | The report exists if and only if every use count and the greatest need fit in 64 bits; otherwise the error is the resource limit |
| `ScratchDemand.DemandWithinEstimateAndOutput` | crates/model-weights/src/operation.rs:1034-1080 | Whatever providers hand back, at every node the held buffers and transient scratch stay within the estimate plus the output length |
| `ScratchDemand.ReuseNeedsLess` | crates/model-weights/src/operation.rs:1034-1080 | More sharing never raises the greatest need |
| `NodeExecution.ExecuteConcatNode` | crates/model-weights/src/operation.rs:1641-1674 | Either concat kernel produces the node's logical meaning |
| `NodeExecution.ExecutePermuteNode` | crates/model-weights/src/operation.rs:1676-1714 | Alias, tiled, vector or generic route: always the node's logical meaning |
| `NodeExecution.ExecutePadNode` | crates/model-weights/src/operation.rs:1716-1734 | The padded storage holds the logical input with zero tails |
| `NodeExecution.ExecuteSliceNode` | crates/model-weights/src/operation.rs:1736-1754 | The slice's logical meaning |
| `NodeExecution.ExecuteSplitNode` | crates/model-weights/src/operation.rs:1756-1801 | One output per range, each the slice it means |
| `NodeExecution.ExecuteReshapeNode` | crates/model-weights/src/operation.rs:1803-1814 | The input's bytes under the new facts mean the reshaped tensor |
| `NodeExecution.ExecutePrepareNode` | crates/model-weights/src/operation.rs:1816-1850 | The provider's bytes, whether or not it hands back its source view |
| `NodeExecution.ExecuteNode` | crates/model-weights/src/operation.rs:1608-1639 | Dispatch: outputs are correct for the operation's meaning, and every error is one of the listed causes |
| `NodeBytes.MeaningComputes` | crates/model-weights/src/operation.rs:1641-1850 | A node's output bytes from its input bytes and its arguments: slice and split read the element further by the range start, permutation the reordered coordinate, storage permutation and padding the row-major position in the storage shape with zeros elsewhere, concatenation the coordinate within the input at hand, reshape the same bytes, preparation the provider's bytes |
| `NodeBytes.HeldTraceIsComputed` | crates/model-weights/src/operation.rs:1210-1284 | When every value holds its evaluation, each node output's bytes are computed in that way from the bytes of the node's inputs |
| `Execution.CollectArguments` | crates/model-weights/src/operation.rs:1133-1289 | Looks up every argument; on a live set it finds all of them |
| `Execution.ConsumeRuntimeInputs` | crates/model-weights/src/operation.rs:1546-1559 | The runtime map loses exactly the values the schedule released |
| `Execution.RemoveUnusedRuntime` | crates/model-weights/src/operation.rs:1561-1575 | Unused outputs leave the runtime map exactly when they leave the schedule |
| `Execution.PublishOutputs` | crates/model-weights/src/operation.rs:1210-1284 | Every output is stored with its bytes and its allocation, shared exactly when it aliases |
| `HostExecutor.ExecuteStep` | crates/model-weights/src/operation.rs:1210-1284 | One node keeps every held value equal to its reference evaluation; it runs only with the built-in implementation pinned, and an internal inconsistency cannot occur |
| `HostExecutor.ExecuteHost` | crates/model-weights/src/operation.rs:1133-1289 | A successful run returns bytes that read as the naive recursive evaluation of the graph, with a byte trace in which every node's bytes are computed from its inputs' by its own arguments; every implementation was the built-in one, no check saw a cancellation, and the scratch is the run's report; a failure has one of the listed causes |
| `HostExecutor.PreparationFailsAsEvaluated` | crates/model-weights/src/operation.rs:1816-1850 | A provider failure is the failure of that very node in the reference evaluation, with the same error |
| `HostExecutor.ReturnedBytes` | crates/model-weights/src/operation.rs:975-1021 | The returned bytes are an input's own bytes exactly when the alias query says so; otherwise padding is zero |
| `HostExecutor.ExecutionIsDeterministic` | crates/model-weights/src/operation.rs:1133-1289 | Two successful runs return the same bytes whichever kernels run and whichever sources providers reuse |
| `Budget.ResourceBudget.TryAcquire` | crates/model-weights/src/pipeline.rs:962-995 | Grants a permit exactly when the request fits beside what is used, errs when it can never fit, and used stays the sum of live permits |
| `Budget.ResourceBudget.Release` | crates/model-weights/src/pipeline.rs:1020-1028 | Gives back exactly the released weights; the saturating subtraction never saturates |
| `Budget.ResourcePermit.SplitPrepared` | crates/model-weights/src/pipeline.rs:1044-1052 | Moves the prepared bytes to a permit of their own, conserving the total |
| `Budget.ResourcePermit.RetainPrepared` | crates/model-weights/src/pipeline.rs:1054-1061 | Keeps at most the given prepared bytes and releases the rest |
| `Budget.RetainAll` | crates/model-weights/src/pipeline.rs:1084-1101 | Over any list of permits exactly the actual prepared bytes stay reserved |
| `Budget.PrepareContext.WithResources` | crates/model-weights/src/pipeline.rs:281-346 | Goes through exactly when the operation succeeds and what is missing fits beside everything in use; on success and on failure the recorded total again equals the permits held and the budget moved by exactly its change; source and scratch additions are returned, prepared bytes are kept on success only |
| `Budget.FinishPreparation` | crates/model-weights/src/pipeline.rs:705-725 | After a preparation exactly its actual prepared bytes remain reserved, or nothing |
| `Budget.DispatchWindow.TryAcquire` | crates/model-weights/src/pipeline.rs:1125-1146 | Takes a place exactly while fewer than the lookahead are taken |
| `Budget.DispatchWindow.Release` | crates/model-weights/src/pipeline.rs:1148-1156 | Frees exactly one place; the saturating decrement never saturates |
| `ResourceWeights.TotalChange` | crates/model-weights/src/pipeline.rs:1176-1190 | Changing one permit changes the total of all permits by the difference |
| `Pipeline.ValidateWork` | crates/model-weights/src/pipeline.rs:590-609 | Accepts exactly sorted work with unique ordinals and reservations within the limits |
| `Pipeline.StepKeeps` | crates/model-weights/src/pipeline.rs:611-879 | Every step of dispatcher, workers and coordinator keeps the whole invariant |
| `Pipeline.ReachableKeeps` | crates/model-weights/src/pipeline.rs:611-879 | The invariant holds in every reachable state, for every worker count, queue depth and lookahead |
| `Pipeline.DeliveredPrefix` | crates/model-weights/src/pipeline.rs:751-833 | In every interleaving the sink sees a strictly ascending prefix of the sorted ordinals, each once; the duplicate-ordinal branch is unreachable |
| `Pipeline.UninterruptedOutcome` | crates/model-weights/src/pipeline.rs:751-879 | Without cancellation exactly the items below the least failing one are delivered, and that item's error is returned |
| `Pipeline.OutcomeFromConfiguration` | crates/model-weights/src/pipeline.rs:751-879 | The same from the work alone: an item is delivered if and only if it and every earlier one prepared within its reservation and was accepted; otherwise the error is that of the least item that failed, exceeded its reservation or was refused |
| `Pipeline.PendingIsBounded` | crates/model-weights/src/pipeline.rs:788-814 | The coordinator's pending buffer never exceeds lookahead minus one |
| `Pipeline.BudgetIsConserved` | crates/model-weights/src/pipeline.rs:962-1028 | In every reachable state used equals the sum of live permits, within the limit in each dimension, and each item holds exactly its phase's weights |
| `Pipeline.PermitsFromConfiguration` | crates/model-weights/src/pipeline.rs:705-725 | A permit holds the item's whole reservation, or exactly its prepared bytes within it and no source or scratch |
| `Pipeline.ConcurrencyIsBounded` | crates/model-weights/src/pipeline.rs:416-540 | There are as many workers as the least of worker limit, lookahead and items; queue, unread results and window places stay within their configured sizes |
| `Pipeline.NothingRemains` | crates/model-weights/src/pipeline.rs:416-540 | When the pipeline returns, no weight, permit or window place is held |
| `Pipeline.DeadlockFree` | crates/model-weights/src/pipeline.rs:611-833 | Every reachable state that is not finished has an enabled step other than outside cancellation |
| `Pipeline.StepDecreases` | crates/model-weights/src/pipeline.rs:611-879 | Every step lowers a natural measure of the remaining work |
| `Pipeline.RunsEnd` | crates/model-weights/src/pipeline.rs:416-540 | Every run has at most as many steps as the initial measure: with deadlock freedom, every run finishes |
| `CacheStore.Shard.Publish` | crates/model-weights/src/cache.rs:1631-1664 | Two renames install the staged entry or restore the old one on failure |
| `CacheStore.Shard.Recover` | crates/model-weights/src/cache.rs:1768-1863 | For any listing order and staleness: exactly the listed stale names go, none that is not stale and no staging directory or generation under a live lease; published entries stay, a key under a live lease gains none, and otherwise the first replaced generation listed is restored |
| `CacheStore.RecoverRemovesExactly` | crates/model-weights/src/cache.rs:1768-1863 | A name other than a published one survives with its entry if and only if it was not listed, not stale, or protected by a live lease of its key |
| `CacheStore.RecoverRestoresFirst` | crates/model-weights/src/cache.rs:1816-1863 | A key without a published entry or live lease gets the first stale generation in the listing, and otherwise none |
| `CacheStore.RecoverKeepsPublished` | crates/model-weights/src/cache.rs:1768-1814 | Recovery never removes or changes a published entry, whatever is stale |
| `CacheStore.RecoverInventsNothing` | crates/model-weights/src/cache.rs:1816-1863 | A published entry after recovery was published before or is a replaced generation of its key |
| `CacheStore.RecoverCleans` | crates/model-weights/src/cache.rs:1768-1863 | With everything stale one pass leaves only published entries, and a key has one exactly when it had one or a replaced generation |
| `CacheStore.RecoveryAfterCrash` | crates/model-weights/src/cache.rs:1631-1664 | After a crash at any step of a publication one pass restores the complete old directory, or the complete new one once installed |
| `CacheStore.CrashStatesAreTheSteps` | crates/model-weights/src/cache.rs:1631-1664 | The crash states are precisely the states between the atomic steps of a publication |
| `CacheLookup.LookupEntry` | crates/model-weights/src/cache.rs:843-915 | Final path, listing, final path, listed generations, last attempt: the result is the declared one for every interleaving with a replacement |
| `CacheLookup.HitAnswersRequest` | crates/model-weights/src/cache.rs:1293-1374 | Whatever happens meanwhile, a hit carries the requested version, namespace, key and compatibility, a payload of the recorded length and, under full validation, of the recorded digest |
| `CacheLookup.UndisturbedLookup` | crates/model-weights/src/cache.rs:843-915 | Without a replacement a lookup hits exactly a complete entry that answers the request, and returns it whole |
| `CacheLookup.NeverMisses` | crates/model-weights/src/cache.rs:851-915 | Beside at most one replacement between satisfying generations a lookup always hits |
| `CacheLookup.MixesExactlyWhenTorn` | crates/model-weights/src/cache.rs:1293-1374 | A hit mixes an old envelope with a new payload if and only if the whole replacement falls between its two file reads and the new payload passes the old envelope's checks |
| `CacheLookup.MixableExactlyWhenPayloadFits` | crates/model-weights/src/cache.rs:1293-1374 | Two generations can be mixed in some interleaving if and only if the new payload passes the checks of the old envelope, a condition on the generations alone |
| `CacheLookup.FullValidationIsWhole` | crates/model-weights/src/cache.rs:1293-1374 | With full validation and a digest that separates the payloads, a hit is always consistent |
| `CacheLookup.SizeValidationCanMix` | crates/model-weights/src/cache.rs:286-298 | With trusted metadata and equal lengths a mixed hit exists |
| `Identity.UnframeOfFrame` | crates/model-weights/src/identity.rs:24-35 | Length-prefixed framing can be read back: part boundaries are unambiguous |
| `Identity.HashInputIsInjective` | crates/model-weights/src/identity.rs:24-35 | The hash input determines the domain and every part |
| `Identity.FeedHash` | crates/model-weights/src/identity.rs:24-35 | The hasher consumes exactly that input, part by part |
| `Identity.KeyPartsAreInjective` | crates/model-weights/src/cache.rs:156-177 | Equal key inputs come from the same namespace, compatibility contract and identities |
| `Identity.SnapshotIdentity` | crates/model-weights/src/checkpoint.rs:406-441 | The buffer loop appends one record per file in order |
| `Identity.SnapshotRecordsAreInjective` | crates/model-weights/src/checkpoint.rs:406-441 | Equal snapshot buffers describe the same files, sizes and digests |
| `Identity.ParseDigest` | crates/model-weights/src/identity.rs:53-75 | Accepts exactly 64 hexadecimal digits and pairs them into bytes |
| `Identity.HexRoundTrip` | crates/model-weights/src/identity.rs:44-75 | Printing and parsing a digest gives the digest back |
| `Identity.HexNormalizes` | crates/model-weights/src/identity.rs:44-104 | Parsing and printing a text gives it back in lower case |
| `LittleEndian.DecodeOfEncode` | crates/model-weights/src/gguf.rs:1046-1076 | Fixed-width little-endian numbers round trip |
| `LittleEndian.EncodeOfDecode` | crates/model-weights/src/gguf.rs:1046-1076 | and so do the bytes |
| `LittleEndian.EncodeDigit` | crates/model-weights/src/gguf.rs:1046-1076 | Byte i of an encoding is the digit of weight 256^i |
| `GgufReader.Reader.FillBuffer` | crates/model-weights/src/gguf.rs:1011-1022 | Refills the window at the offset with the file's bytes |
| `GgufReader.Reader.ReadInto` | crates/model-weights/src/gguf.rs:983-1009 | Fills any output across refills with the file's bytes at the offset |
| `GgufReader.Reader.Read` | crates/model-weights/src/gguf.rs:938-981 | The buffered, bounded read refines direct indexing of the file, errors included |
| `GgufMetadata.ReadValue` | crates/model-weights/src/gguf.rs:738-765 | The recursive reader refines the pure parser and advances exactly to its end |
| `GgufMetadata.ReadArray` | crates/model-weights/src/gguf.rs:767-830 | Arrays likewise, with the count pre-check and the nesting bound |
| `GgufMetadata.ReadMetadata` | crates/model-weights/src/gguf.rs:559-592 | The metadata loop likewise, with duplicate keys and the header bound refused |
| `GgufMetadata.CodesAreExact` | crates/model-weights/src/gguf.rs:717-735 | Value type codes decode to exactly the type that has them |
| `GgufMetadata.ParseOfEncode` | crates/model-weights/src/gguf.rs:738-815 | Parsing the encoding of any value that fits and nests at most 64 arrays returns it; no count check rejects it |
| `GgufMetadata.EncodeOfParse` | crates/model-weights/src/gguf.rs:738-815 | Everything the parser accepts is the encoding of a well-formed value, consumed exactly |
| `GgufMetadata.MetadataRoundTrip` | crates/model-weights/src/gguf.rs:559-592 | Reading the encoding of any fitting distinct-key metadata returns that metadata and ends after it |
| `Alignment.AlignUpIsLeastMultiple` | crates/model-weights/src/gguf.rs:897-902 | The mask yields the least multiple of the alignment at or above the value; an error means no multiple fits in 64 bits |
| `Packing.FlatPackingAgrees` | crates/model-weights/src/quantization.rs:887-945 | The storage constructor accepts every flat-packed length the header validator computes |
| `Packing.AxisBytesAgree` | crates/model-weights/src/quantization.rs:897-945 | Line-by-line packing equals whole-tensor packing; exactly when it can err instead |
| `GgufTensors.StorageIsExact` | crates/model-weights/src/gguf.rs:840-884 | An accepted payload length is exactly that of the tensor's elements |
| `GgufTensors.PackedStorageAccepts` | crates/model-weights/src/quantization.rs:887-931 | A computed packed length is refused by the constructor only for an empty tensor whose one row would not fit |
| `GgufTensors.Overlapping` | crates/model-weights/src/gguf.rs:685-688 | The neighbour scan computes the neighbour predicate |
| `GgufTensors.BuildTensorRecords` | crates/model-weights/src/gguf.rs:643-690 | Individually acceptable tensors are accepted together if and only if no two payload spans overlap; otherwise the first offender's error |
| `GgufTensors.RecordIsExactly` | crates/model-weights/src/gguf.rs:643-684 | A tensor is accepted on its own if and only if its offset is aligned, its type known and its exact payload ends inside the file; the record has its name, the type of its code, the dimensions in reverse and the offset beyond the data base |
| `GgufMetadata.MetadataIsEncoding` | crates/model-weights/src/gguf.rs:559-592 | Every accepted metadata block is the encoding of fitting entries with different keys whose map is the result, consumed exactly |
| `GgufFile.DescriptorReads` | crates/model-weights/src/gguf.rs:607-641 | A tensor descriptor is read exactly where the encoding of one within the limits stands, and the reader ends right after it |
| `GgufFile.HeaderRoundTrip` | crates/model-weights/src/gguf.rs:508-557 | Reading the encoding of any header within the limits gives back version, metadata, alignment and descriptors |
| `GgufFile.HeaderIsEncoding` | crates/model-weights/src/gguf.rs:508-557 | Every accepted header is the encoding of one within the limits, consumed exactly |
| `GgufFile.AlignmentFits` | crates/model-weights/src/gguf.rs:594-605 | The alignment taken from well-formed metadata is a power of two of 64 bits |
| `GgufFile.AcceptedFile` | crates/model-weights/src/gguf.rs:508-557 | In every accepted file there is one payload for each descriptor, aligned to the alignment the metadata states, after the header, inside the file, exactly as long as its elements, and sharing no byte with another |
| `GgufFile.AcceptedExactly` | crates/model-weights/src/gguf.rs:508-557 | After an accepted header a file is accepted if and only if the least aligned data start fits, each record is the one its descriptor describes there, and no two payload spans overlap |
| `GgufFile.ReadDescriptor` | crates/model-weights/src/gguf.rs:607-641 | One descriptor through the buffered reader refines the pure parser and advances exactly to its end |
| `GgufFile.ReadTensorInfos` | crates/model-weights/src/gguf.rs:607-641 | The descriptor loop likewise |
| `GgufFile.ReadHeader` | crates/model-weights/src/gguf.rs:508-528 | The header through the buffered reader, errors included |
| `GgufFile.Parse` | crates/model-weights/src/gguf.rs:508-557 | Parsing a file through the buffered reader, in the order and with the errors of the pure parser |
| `EmptyTensors.StridesCanOverflow` | crates/model-weights/src/operation.rs:2843-2854 | Valid facts without elements whose row-major strides do not fit |
| `EmptyTensors.ConcatInnerCanOverflow` | crates/model-weights/src/operation.rs:2001-2078 | An empty concatenation of canonical inputs that the contiguous form refuses and the generic kernel takes |
| `EmptyTensors.ChannelCanOverflow` | crates/model-weights/src/operation_simd.rs:63-118 | An empty 3x3 weight that the vector form refuses and the generic storage copy takes |
| `EmptyTensors.PackedRowCanOverflow` | crates/model-weights/src/quantization.rs:887-931 | An empty packed tensor that only the line-by-line check refuses |
| `SpanLayout.SortSorts` | crates/model-weights/src/checkpoint.rs:1709-1717 | The sort orders spans by (start, end, name) and keeps every one |
| `SpanLayout.CursorDecidesTiling` | crates/model-weights/src/checkpoint.rs:1709-1733 | Sort-then-cursor accepts spans, in any given order, if and only if each byte of the section is claimed exactly once and empty spans sit on boundaries |
| `SpanLayout.OneClaimant` | crates/model-weights/src/checkpoint.rs:1719-1733 | A byte claimed once lies in exactly one span |
| `SpanLayout.NeighbourCheckDecidesDisjointness` | crates/model-weights/src/gguf.rs:685-688 | Sort-then-neighbours accepts spans if and only if all pairs are disjoint |
| `Safetensors.SoundLength` | crates/model-weights/src/checkpoint.rs:1759-1787 | An accepted entry's length is exactly its elements in its dtype, packed or plain |
| `Safetensors.EntryIsExactly` | crates/model-weights/src/checkpoint.rs:1666-1787 | An entry is accepted on its own if and only if its rank is allowed, its dtype known and its span inside the data section with exactly the length of its elements |
| `Safetensors.SoundIntoStorage` | crates/model-weights/src/checkpoint.rs:1789-1810 | An accepted entry always passes the storage constructor |
| `Safetensors.CheckCursor` | crates/model-weights/src/checkpoint.rs:1719-1733 | The cursor loop computes the chain predicate |
| `Safetensors.ValidateTensorEntries` | crates/model-weights/src/checkpoint.rs:1666-1747 | Individually acceptable entries are accepted together exactly when they tile the data section; records follow in span order at absolute offsets |
| `Aliases.ChainRepeats` | crates/model-weights/src/overlay.rs:925-937 | One walk reports a repetition only on a cyclic graph, and otherwise proves its chain ends |
| `Aliases.ValidateAliasCycles` | crates/model-weights/src/overlay.rs:925-937 | Accepts exactly the acyclic graphs |
| `Aliases.NewTable` | crates/model-weights/src/overlay.rs:69-83 | Accepts exactly the alias lists without duplicates whose graph is acyclic |
| `Aliases.Resolve` | crates/model-weights/src/overlay.rs:87-93 | Terminates on every accepted graph at a name that is no alias and is reached from the start |
| `Aliases.ResolutionLaws` | crates/model-weights/src/overlay.rs:87-93 | Resolution is idempotent, fixes non-aliases, and agrees along a chain |
| `OverlayPlans.SortBasesSorts` | crates/model-weights/src/overlay.rs:606 | Bases are kept and put in name order |
| `OverlayPlans.NeighboursDecideDistinct` | crates/model-weights/src/overlay.rs:606-611 | In name order the neighbour comparison finds every duplicate |
| `Overlay.PlaceLayer` | crates/model-weights/src/overlay.rs:641-676 | One layer's operations are appended to the bases they resolve to, or the first refusal is returned exactly when the whole cannot be placed |
| `OverlayPlans.PlaceLayers` | crates/model-weights/src/overlay.rs:630-676 | Every base collects exactly the operations that resolve to it, in layer-then-index order; refused exactly for repeated layers, unplaceable operations or conflicts |
| `OverlayPlans.Build` | crates/model-weights/src/overlay.rs:599-702 | Accepts exactly the buildable inputs and binds every base to what it collects |
| `OverlayPlans.OperationPlacedOnce` | crates/model-weights/src/overlay.rs:630-688 | Every operation of a built plan is referenced exactly once, by the binding of the base its target resolves to, and by no other |
| `OverlayPlans.NothingInvented` | crates/model-weights/src/overlay.rs:630-688 | A binding references nothing but operations of the plan |
| `OverlayOrder.BuildableExactly` | crates/model-weights/src/overlay.rs:599-688 | What planning accepts, from the inputs: distinct base names and layer identities, aliases that shadow no base and lead to one, every operation fitting the base its target resolves to, and under the rejecting policy no two operations on one base |
| `OverlayOrder.BindingInOrder` | crates/model-weights/src/overlay.rs:630-688 | Each binding refers to exactly the operations whose target resolves to its base, earlier layers first and by index within a layer |
| `OverlayOrder.ShapeIsExactly` | crates/model-weights/src/overlay.rs:1089-1119 | An operation fits a base exactly when what it contributes has the base's shape; for a low-rank update that is the product of its factors over a positive rank |
| `OverlayIdentity.DeduplicatedIsAscending` | crates/model-weights/src/overlay.rs:955-965 | The referenced file ordinals are listed once each, ascending |
| `OverlayOrder.ReferencesExactly` | crates/model-weights/src/overlay.rs:955-1018 | An operation references exactly the payload and companion files of its own tensors |
| `OverlayIdentity.ReferencedSourceDigests` | crates/model-weights/src/overlay.rs:955-993 | The digests of exactly the referenced ordinals, or an integrity error when one is missing |
| `OverlayIdentity.TargetPayload` | crates/model-weights/src/overlay.rs:790-847 | On a valid plan every lookup succeeds; the only error is a target without a base |
| `OverlayIdentity.IdentityDependsOnlyOnView` | crates/model-weights/src/overlay.rs:790-847 | Two targets, even of different plans, have equal identities if and only if mode, policy, base, ordered operations and the digests those reference agree |
| `OverlayIdentity.DigestDecidesIdentity` | crates/model-weights/src/overlay.rs:939-953 | Under collision-free hashing the nested digest separates exactly the different identities |
| `OverlayIdentity.QuietLayer` | crates/model-weights/src/overlay.rs:790-847 | Inserting a layer anywhere that does not touch a base leaves what that base collects unchanged |
| `PreparedAddress.ContractBytesAreInjective` | crates/model-weights/src/materialize.rs:1075-1091 | Target JSON followed by the overlay flag and digest is unambiguous |
| `PreparedAddress.OrdinalsCovered` | crates/model-weights/src/materialize.rs:1925-1939 | Validated sources reference only ordinals that have digests |
| `PreparedAddress.AddressDeterminesInputs` | crates/model-weights/src/materialize.rs:455-510 | Equal cache addresses, across plans and checkpoints, mean the same target, overlay, backend, sources and source bytes |
| `PreparedAddress.AddressIsExactly` | crates/model-weights/src/materialize.rs:455-510 | Two addresses are equal if and only if binding and backend are the same and the files the sources lie in have the same digests; nothing else of plan or checkpoint counts |
| `Materialize.SameFinal` | crates/model-weights/src/materialize.rs:1042-1107 | and therefore the same final bytes |
| `Materialize.HitIsFinal` | crates/model-weights/src/materialize.rs:1619-1691 | An accepted hit of a sound cache holds the binding's final bytes |
| `Materialize.TrustedHitIsFinalWhenIntact` | crates/model-weights/src/materialize.rs:1619-1691 | Under trusted metadata a hit holds the final bytes if and only if the payload is intact |
| `Materialize.PublishKeepsSound` | crates/model-weights/src/cache.rs:948-999 | Publishing final bytes keeps every envelope genuine |
| `Materialize.MaterializationIsTransparent` | crates/model-weights/src/materialize.rs:1109-1186 | One materialization keeps the cache sound and agrees with the uncached one; under full validation for arbitrary payloads on disk |
| `Materialize.HostTransparency` | crates/model-weights/src/materialize.rs:1188-1425 | For host-executed bindings cached and uncached materialization fail alike or deliver the same bytes |
| `Materialize.HostMaterializationRepairs` | crates/model-weights/src/materialize.rs:1619-1691 | Afterwards the cache holds a fully valid entry: corruption was evicted and recomputed |
| `Materialize.CachedIsDelivered` | crates/model-weights/src/materialize.rs:1619-1691 | An intact cached payload of the planned length is delivered as it is, with origin cache and the entries unchanged, in either mode and under either validation |
| `Materialize.PublishedIsDelivered` | crates/model-weights/src/materialize.rs:887-915 | Final bytes that were published are what the next materialization delivers from the cache |
| `Materialize.SecondDeliveryIsCached` | crates/model-weights/src/materialize.rs:1109-1425 | A host-executed binding is executed once: materialized again, the same bytes come from the cache |
| `Materialize.UncachedChainIsSource` | crates/model-weights/src/materialize.rs:1333-1425 | An untransformed plain tensor is delivered as its span of the checkpoint file, or refused when the length differs |
| `Materialize.SessionIsTransparent` | crates/model-weights/src/materialize.rs:1109-1425 | Over any session of materializations, provider publications, evictions and corruption, every delivery agrees with the uncached one |
| `GraphMaterialization.GraphBytesAre` | crates/model-weights/src/operation.rs:1133-1289 | The bytes a graph returns are a function of graph, inputs and provider |
| `GraphMaterialization.ExecuteGraphOnHost` | crates/model-weights/src/materialize.rs:1227-1300 | Executor, scratch check and length check: success returns the graph's bytes of the planned length; the checks fire only on a differing plan or a graph whose chain run exceeds its estimate |
| `GraphMaterialization.GraphDeliveryIsEvaluation` | crates/model-weights/src/materialize.rs:1188-1300 | A prepared delivery of a graph target, from the cache or not, reads as the naive evaluation of its graph on the source bytes |
| `PreparedCache.ReadCacheEntry` | crates/model-weights/src/materialize.rs:2083-2146 | Reading in blocks of any size returns the payload exactly when its length and, under full validation, its digest match |
| `PreparedCache.Materializer.TryCachedPrepared` | crates/model-weights/src/materialize.rs:1619-1691 | A hit is delivered if and only if an entry under the address answers with the planned length and reads intact; a wrong entry is evicted, and every other entry stays |
| `PreparedCache.Materializer.PublishReader` | crates/model-weights/src/cache.rs:948-999 | Reuses a fully valid entry and otherwise replaces it |
| `PreparedCache.Materializer.MaterializeBaseBinding` | crates/model-weights/src/materialize.rs:1153-1766 | Cache, execution and publication of every route compute the specified result and entries |
| `PreparedCache.Materializer.MaterializeOne` | crates/model-weights/src/materialize.rs:1109-1151 | The overlay route over its own address, with the base going through the cache separately; a cached payload is delivered unchanged |
| `PreparedCache.Materializer.PublishPreparedBytes` | crates/model-weights/src/materialize.rs:887-915 | Publishes provider bytes of the planned length under the same address, or the exact refusal |

## Left out

- HostExecutor.ExecuteHost: cancellation is checked between nodes, not at every copy tile; allocation failure does not occur; when several causes of failure meet, which of their errors is returned is not stated.
- Pipeline.DeadlockFree: reservations are fixed at dispatch; growth inside a preparation is modelled for accounting only, because the code does not guarantee progress for it.
- Pipeline.StepKeeps: a worker that waits for the budget or a full channel simply has no step; wake-up order, clocks, phase metrics and telemetry events are not part of the state.
- Budget.ResourceBudget.TryAcquire: one pass of the waiting loop; blocking is the absence of a step in `Pipeline`.
- Budget.PrepareContext.WithResources: operations run one after the other, not nested.
- OhwiSimd.PermuteAvx2: registers hold 16-bit elements; byte order inside an element and processor detection are not modelled.
- CacheStore.Shard.Publish: renames are atomic; fsync, retries on Windows and lease exclusion once a stale lease is reaped are not modelled.
- CacheStore.Shard.Recover: several leftover generations of a key are taken in listing order; scan budgets and removed-byte counts are left out.
- CacheLookup.NeverMisses: at most one replacement overlaps the lookup, and both generations satisfy the request.
- PreparedAddress.AddressDeterminesInputs: SHA-256 and JSON are injective functions, JSON without control characters.
- Materialize.SessionIsTransparent: calls do not overlap in time and payloads change only between them; `Environment.host` is one deterministic function, so the scratch check of a graph whose chain run exceeds its estimate is assumed to answer alike for equal inputs.
- PreparedCache.Materializer.MaterializeBaseBinding: I/O errors, resource reservations and telemetry around the cache are not modelled; reads of validated spans succeed.
- GgufMetadata.ReadMetadata: array storage by element type is one sequence of values; floating-point and signed scalars are their bit patterns; allocation failure does not occur.
- GgufTensors.BuildTensorRecords: block encodings are their names and block sizes; provider names and versions of encodings are not modelled.
- Strides.ValidateDenseStridesLoop: pairs of equal stride are ordered by axis, where the code's sort leaves their order open; acceptance does not depend on it (`Strides.StorageAcceptedExactly`), but which of two errors a rejection carries could.
- Strides.ValidateStorageStridesLoop: likewise for pairs of equal stride.
- Pipeline.UninterruptedOutcome: the sink accepts or refuses each item by a fixed choice; a sink that refuses only because the run was cancelled is not modelled.
- Safetensors.ValidateTensorEntries: JSON parsing, metadata limits and shard indexes are not modelled.
- Aliases.ValidateAliasCycles: start names are visited in any order.
- OverlayPlans.Build: the digest of the complete plan and its JSON form are left out; bases are already validated one by one.
- Overlay.PlaceLayer: shape products, recipe input names and 32-bit file ordinals are checked by constructors that are not modelled.
- Evaluation.AliasMeaning: provider computations are a function of the planned transform, the shape and the source bytes.
- Sizes are unbounded integers checked against 64 bits where the code checks; the address size is 64 bits.
- Binding plans, quantization metadata, telemetry, limits, inventories and plain accessors are left out: they would only add easy members.
- The blocked numeric casts of the built-in providers and rounding of half-precision numbers are left out.
- Checkpoint digest caching, memory mapping and source reading are left out.

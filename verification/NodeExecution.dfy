/** Execution of one node: the choice of kernel, the aliases, and the meaning every choice has. */
module NodeExecution {
  import opened Checked
  import opened Shapes
  import opened Buffers
  import opened Facts
  import opened Operations
  import opened Kernels
  import opened Concatenation
  import opened OhwiPermute
  import opened Graphs
  import opened Evaluation

  datatype OutputOrigin = Fresh | Alias(input: nat)

  datatype Produced = Produced(bytes: seq<byte>, origin: OutputOrigin)

  datatype ExecutedNode = ExecutedNode(outputs: seq<Produced>, transientScratch: nat)

  function BytesOf(outputs: seq<Produced>): (r: seq<seq<byte>>)
    ensures |r| == |outputs|
  {
    seq(|outputs|, i requires 0 <= i < |outputs| => outputs[i].bytes)
  }

  /** A node with inferred outputs, on inputs of the right lengths. */
  ghost predicate Runnable(node: Node, facts: seq<TensorFacts>, inputs: seq<seq<byte>>) {
    InferOutputs(node.operation, facts) == Ok(node.outputs) && AllSized(facts, inputs)
  }

  lemma InputsDescribed(facts: seq<TensorFacts>, inputs: seq<seq<byte>>)
    requires AllSized(facts, inputs)
    ensures Described(Views(facts, inputs), facts)
  {
  }

  /** The logical result of a node on its input bytes. */
  ghost function NodeMeaning(node: Node, facts: seq<TensorFacts>, inputs: seq<seq<byte>>, provider: Provider)
    : Result<seq<Tensor>>
    requires Runnable(node, facts, inputs)
  {
    Apply(node.operation, facts, Views(facts, inputs), provider)
  }

  ghost predicate OutputsSized(node: Node, outputs: seq<Produced>) {
    AllSized(node.outputs, BytesOf(outputs))
  }

  /** Aliased outputs carry the bytes of an input, and fresh ones have zero padding. */
  ghost predicate Origins(node: Node, inputs: seq<seq<byte>>, outputs: seq<Produced>)
    requires OutputsSized(node, outputs)
  {
    forall i :: 0 <= i < |outputs| ==>
      match outputs[i].origin
      case Alias(j) => |outputs| == 1 && j == 0 && |inputs| == 1 && outputs[0].bytes == inputs[0]
      case Fresh => PadsZero(node.outputs[i], outputs[i].bytes)
  }

  /** The outputs mean what the operation means. */
  ghost predicate Correct(node: Node, facts: seq<TensorFacts>, inputs: seq<seq<byte>>, provider: Provider,
                          outputs: seq<Produced>)
    requires Runnable(node, facts, inputs)
  {
    |outputs| == |node.outputs| && (node.operation.Prepare? || OutputsSized(node, outputs))
    && (OutputsSized(node, outputs) ==>
          NodeMeaning(node, facts, inputs, provider) == Ok(Views(node.outputs, BytesOf(outputs)))
          && Origins(node, inputs, outputs))
  }

  /** A structural operation fails only on a 64-bit limit that an empty tensor can reach. */
  ghost predicate EmptyLimit(node: Node, e: Error) {
    e == ResourceLimit && exists i :: 0 <= i < |node.outputs| && Elements(node.outputs[i].logicalShape) == 0
  }

  function FreshNode(bytes: seq<byte>): ExecutedNode {
    ExecutedNode([Produced(bytes, Fresh)], 0)
  }

  function SharedNode(bytes: seq<byte>): ExecutedNode {
    ExecutedNode([Produced(bytes, Alias(0))], 0)
  }

  lemma OneView(f: TensorFacts, bytes: seq<byte>)
    requires ValidFacts(f) && Sized(f, bytes)
    ensures AllSized([f], [bytes]) && Views([f], [bytes]) == [View(f, bytes)]
  {
  }

  /** A single stored output is correct when it stores the meaning. */
  lemma StoredOutput(node: Node, facts: seq<TensorFacts>, inputs: seq<seq<byte>>, provider: Provider, bytes: seq<byte>, t: Tensor)
    requires Runnable(node, facts, inputs) && |node.outputs| == 1 && Stores(node.outputs[0], bytes, t)
    requires NodeMeaning(node, facts, inputs, provider) == Ok([t])
    ensures Correct(node, facts, inputs, provider, FreshNode(bytes).outputs)
  {
    hide NewFacts, InferOutputs, View, Apply;
    OneView(node.outputs[0], bytes);
    assert node.outputs == [node.outputs[0]] && BytesOf(FreshNode(bytes).outputs) == [bytes];
  }

  /** The meaning of a unary node. */
  lemma UnaryMeaning(node: Node, facts: seq<TensorFacts>, inputs: seq<seq<byte>>, provider: Provider)
    requires Runnable(node, facts, inputs) && !node.operation.Concat?
    ensures |facts| == |inputs| == 1 && facts == [facts[0]] && ValidFacts(facts[0]) && Sized(facts[0], inputs[0])
    ensures InferOutputs(node.operation, [facts[0]]) == Ok(node.outputs)
    ensures NodeMeaning(node, facts, inputs, provider)
            == ApplyUnary(node.operation, facts[0], node.outputs, View(facts[0], inputs[0]), provider)
  {
    hide NewFacts, View, InferConcat, InferPermute, InferPad, InferSlice, InferSplit, InferReshape, InferPrepare, ApplyUnary;
    assert facts == [facts[0]];
  }

  lemma ConcatMeaning(node: Node, facts: seq<TensorFacts>, inputs: seq<seq<byte>>, provider: Provider)
    requires Runnable(node, facts, inputs) && node.operation.Concat?
    ensures Joinable(Views(facts, inputs), node.operation.axis)
    ensures NodeMeaning(node, facts, inputs, provider) == Ok([ConcatTensors(Views(facts, inputs), node.operation.axis)])
  {
    hide NewFacts, InferConcat, ConcatTensors, AllSized, Views, Joinable;
    InputsDescribed(facts, inputs);
    ConcatIsJoinable(node.operation.axis, facts, Views(facts, inputs));
  }

  method ExecuteConcatNode(node: Node, facts: seq<TensorFacts>, inputs: seq<seq<byte>>, ghost provider: Provider)
    returns (r: Result<ExecutedNode>)
    requires Runnable(node, facts, inputs) && node.operation.Concat?
    ensures r.Ok? ==> Correct(node, facts, inputs, provider, r.value.outputs) && r.value == FreshNode(r.value.outputs[0].bytes)
    ensures r.Err? ==> EmptyLimit(node, r.error)
  {
    hide NewFacts, InferConcat, Stores, ConcatTensors, AllSized, Views, Joinable;
    ConcatOutput(node.operation.axis, facts);
    var out := node.outputs[0];
    assert node.outputs == [out];
    var axis := node.operation.axis;
    EachInputValid(facts, inputs);
    InputsDescribed(facts, inputs);
    ConcatIsJoinable(axis, facts, Views(facts, inputs));
    ghost var t := ConcatTensors(Views(facts, inputs), axis);
    ConcatMeaning(node, facts, inputs, provider);
    hide Apply, NodeMeaning, Correct, Elements;
    if (forall i :: 0 <= i < |facts| ==> facts[i].Canonical()) && out.Canonical() {
      NonEmptyConcatFits(axis, facts, out);
      var bytes :- BuildContiguousConcat(axis, facts, out, inputs);
      StoredOutput(node, facts, inputs, provider, bytes, t);
      return Ok(FreshNode(bytes));
    }
    var output := AllocateTensor(out);
    var _ :- ExecuteConcatBytes(axis, facts, out, inputs, output);
    StoredOutput(node, facts, inputs, provider, output[..], t);
    return Ok(FreshNode(output[..]));
  }

  lemma EachInputValid(facts: seq<TensorFacts>, inputs: seq<seq<byte>>)
    requires AllSized(facts, inputs)
    ensures |facts| == |inputs| && forall i :: 0 <= i < |facts| ==> ValidFacts(facts[i]) && Sized(facts[i], inputs[i])
  {
  }

  lemma NonEmptyConcatFits(axis: nat, facts: seq<TensorFacts>, out: TensorFacts)
    requires InferConcat(axis, facts) == Ok([out])
    ensures Elements(out.logicalShape) > 0 ==> InnerFits(axis, facts)
  {
    hide NewFacts, InferConcat, InnerFits;
    if Elements(out.logicalShape) > 0 {
      NonEmptyInnerFits(axis, facts, out);
    }
  }

  method ExecutePermuteNode(node: Node, facts: seq<TensorFacts>, inputs: seq<seq<byte>>, avx2: bool, ghost provider: Provider)
    returns (r: Result<ExecutedNode>)
    requires Runnable(node, facts, inputs) && node.operation.Permute?
    ensures r.Ok? ==> Correct(node, facts, inputs, provider, r.value.outputs)
    ensures r.Ok? ==> |node.outputs| == |inputs| == |facts| == 1
                      && r.value == (if IsIdentityOrder(node.operation.order) && facts[0] == node.outputs[0]
                                     then SharedNode(inputs[0]) else FreshNode(r.value.outputs[0].bytes))
    ensures r.Err? ==> EmptyLimit(node, r.error)
  {
    hide NewFacts, InferPermute, Stores, View, PermuteTensor, Elements, SuffixesFit;
    UnaryMeaning(node, facts, inputs, provider);
    var order, mode := node.operation.order, node.operation.mode;
    PermuteOutput(order, mode, facts[0]);
    var out := node.outputs[0];
    assert node.outputs == [out];
    if IsIdentityOrder(order) && facts[0] == out {
      IdentityOutput(node, facts, inputs, provider);
      return Ok(SharedNode(inputs[0]));
    }
    ghost var t := if mode.Logical? then PermuteTensor(View(facts[0], inputs[0]), order) else View(facts[0], inputs[0]);
    NonEmptyPermuteFits(order, mode, facts[0], out, avx2);
    var fast :- BuildOihwToOhwiIfSupported(order, mode, facts[0], out, inputs[0], avx2);
    if fast.Some? {
      StoredOutput(node, facts, inputs, provider, fast.value, t);
      return Ok(FreshNode(fast.value));
    }
    var output := AllocateTensor(out);
    var _ :- ExecutePermuteBytes(order, mode, facts[0], out, inputs[0], output);
    StoredOutput(node, facts, inputs, provider, output[..], t);
    return Ok(FreshNode(output[..]));
  }

  lemma NonEmptyPermuteFits(order: seq<nat>, mode: PermuteMode, input: TensorFacts, out: TensorFacts, avx2: bool)
    requires ValidFacts(input) && InferPermute(order, mode, input) == Ok([out])
    ensures mode.Storage? && Elements(out.logicalShape) > 0 ==> SuffixesFit(out.logicalShape)
    ensures Applies(order, mode, input) && Vectorized(input, avx2) && Elements(out.logicalShape) > 0 ==> ChannelFits(input)
  {
    hide NewFacts, InferPermute;
    PermuteOutput(order, mode, input);
    if mode.Storage? && Elements(out.logicalShape) > 0 {
      ValidFactsGuarantee(out);
      if Applies(order, mode, input) && Vectorized(input, avx2) {
        NonEmptyChannelFits(input);
      }
    }
  }

  /** A fact-preserving identity permutation hands its input through. */
  lemma IdentityOutput(node: Node, facts: seq<TensorFacts>, inputs: seq<seq<byte>>, provider: Provider)
    requires Runnable(node, facts, inputs) && node.operation.Permute? && IsIdentityOrder(node.operation.order)
    requires |facts| == |node.outputs| == 1 && facts[0] == node.outputs[0]
    ensures Correct(node, facts, inputs, provider, SharedNode(inputs[0]).outputs)
  {
    hide NewFacts, InferPermute, View, PermuteTensor;
    UnaryMeaning(node, facts, inputs, provider);
    PermuteOutput(node.operation.order, node.operation.mode, facts[0]);
    IdentityPermutes(View(facts[0], inputs[0]), node.operation.order);
    OneView(facts[0], inputs[0]);
    assert node.outputs == [facts[0]] && BytesOf(SharedNode(inputs[0]).outputs) == [inputs[0]];
  }

  method ExecutePadNode(node: Node, facts: seq<TensorFacts>, inputs: seq<seq<byte>>, ghost provider: Provider)
    returns (r: Result<ExecutedNode>)
    requires Runnable(node, facts, inputs) && node.operation.Pad?
    ensures r.Ok? ==> Correct(node, facts, inputs, provider, r.value.outputs) && r.value == FreshNode(r.value.outputs[0].bytes)
    ensures r.Err? ==> EmptyLimit(node, r.error)
  {
    hide NewFacts, InferPad, Stores, View, Elements, SuffixesFit;
    UnaryMeaning(node, facts, inputs, provider);
    PadOutput(node.operation.order, node.operation.storageShape, node.operation.target, facts[0]);
    var out := node.outputs[0];
    ValidFactsGuarantee(out);
    var output := AllocateTensor(out);
    var _ :- ExecuteStorageCopy(facts[0], out, inputs[0], output);
    StoredOutput(node, facts, inputs, provider, output[..], View(facts[0], inputs[0]));
    return Ok(FreshNode(output[..]));
  }

  method ExecuteSliceNode(node: Node, facts: seq<TensorFacts>, inputs: seq<seq<byte>>, ghost provider: Provider)
    returns (r: Result<ExecutedNode>)
    requires Runnable(node, facts, inputs) && node.operation.Slice?
    ensures r.Ok? && Correct(node, facts, inputs, provider, r.value.outputs) && r.value == FreshNode(r.value.outputs[0].bytes)
  {
    hide NewFacts, InferSlice, Stores, View, SliceTensor;
    UnaryMeaning(node, facts, inputs, provider);
    var ranges := node.operation.ranges;
    SliceOutput(ranges, facts[0]);
    var out := node.outputs[0];
    var output := AllocateTensor(out);
    var _ :- ExecuteSliceBytes(ranges, facts[0], inputs[0], out, output);
    StoredOutput(node, facts, inputs, provider, output[..], SliceTensor(View(facts[0], inputs[0]), ranges));
    return Ok(FreshNode(output[..]));
  }

  /** The first `n` outputs of a split are the slices of its ranges, stored afresh. */
  ghost predicate SplitDone(node: Node, f: TensorFacts, input: seq<byte>, outputs: seq<Produced>, n: nat)
    requires ValidFacts(f) && Sized(f, input) && node.operation.Split?
    requires node.operation.axis < |f.logicalShape| && n <= |node.operation.ranges| && n <= |node.outputs|
    requires forall k :: 0 <= k < |node.operation.ranges| ==> RangeFits(node.operation.ranges[k], f.logicalShape[node.operation.axis])
  {
    |outputs| == n
    && forall k :: 0 <= k < n ==>
         outputs[k].origin.Fresh?
         && Stores(node.outputs[k], outputs[k].bytes,
                   SliceTensor(View(f, input), SplitRanges(f.logicalShape, node.operation.axis, node.operation.ranges[k])))
  }

  /** One slice for every range, in order. */
  method ExecuteSplitNode(node: Node, facts: seq<TensorFacts>, inputs: seq<seq<byte>>, ghost provider: Provider)
    returns (r: Result<ExecutedNode>)
    requires Runnable(node, facts, inputs) && node.operation.Split?
    ensures r.Ok? && Correct(node, facts, inputs, provider, r.value.outputs)
    ensures r.value.transientScratch == 0 && forall i :: 0 <= i < |r.value.outputs| ==> r.value.outputs[i].origin.Fresh?
  {
    hide NewFacts, InferSplitFrom, Stores, View, SliceTensor, Correct;
    UnaryMeaning(node, facts, inputs, provider);
    var axis, ranges := node.operation.axis, node.operation.ranges;
    SplitFactsAreContiguous(axis, ranges, facts[0], 0);
    var outputs: seq<Produced> := [];
    var k := 0;
    while k < |ranges|
      invariant 0 <= k <= |ranges| && SplitDone(node, facts[0], inputs[0], outputs, k)
    {
      var output := AllocateTensor(node.outputs[k]);
      var _ :- ExecuteSliceBytes(SplitRanges(facts[0].logicalShape, axis, ranges[k]), facts[0], inputs[0], node.outputs[k], output);
      outputs := outputs + [Produced(output[..], Fresh)];
      k := k + 1;
    }
    SplitCorrect(node, facts, inputs, provider, outputs);
    return Ok(ExecutedNode(outputs, 0));
  }

  lemma SplitSized(node: Node, f: TensorFacts, input: seq<byte>, outputs: seq<Produced>)
    requires ValidFacts(f) && Sized(f, input) && node.operation.Split?
    requires node.operation.axis < |f.logicalShape| && |node.outputs| == |node.operation.ranges|
    requires forall k :: 0 <= k < |node.operation.ranges| ==> RangeFits(node.operation.ranges[k], f.logicalShape[node.operation.axis])
    requires SplitDone(node, f, input, outputs, |node.operation.ranges|)
    ensures OutputsSized(node, outputs)
  {
    hide NewFacts, SliceTensor, View;
    forall k | 0 <= k < |outputs| ensures ValidFacts(node.outputs[k]) && Sized(node.outputs[k], outputs[k].bytes) {
      assert Stores(node.outputs[k], outputs[k].bytes,
                    SliceTensor(View(f, input), SplitRanges(f.logicalShape, node.operation.axis, node.operation.ranges[k])));
    }
  }

  lemma SplitCorrect(node: Node, facts: seq<TensorFacts>, inputs: seq<seq<byte>>, provider: Provider, outputs: seq<Produced>)
    requires Runnable(node, facts, inputs) && node.operation.Split? && |facts| == |inputs| == 1
    requires node.operation.axis < |facts[0].logicalShape| && |node.outputs| == |node.operation.ranges|
    requires forall k :: 0 <= k < |node.operation.ranges| ==>
               RangeFits(node.operation.ranges[k], facts[0].logicalShape[node.operation.axis])
    requires ValidFacts(facts[0]) && Sized(facts[0], inputs[0])
    requires SplitDone(node, facts[0], inputs[0], outputs, |node.operation.ranges|)
    ensures Correct(node, facts, inputs, provider, outputs)
  {
    hide NewFacts, InferOutputs, View, SliceTensor;
    UnaryMeaning(node, facts, inputs, provider);
    SplitSized(node, facts[0], inputs[0], outputs);
    if OutputsSized(node, outputs) {
      var views := Views(node.outputs, BytesOf(outputs));
      forall k | 0 <= k < |outputs|
        ensures views[k] == SliceTensor(View(facts[0], inputs[0]),
                                        SplitRanges(facts[0].logicalShape, node.operation.axis, node.operation.ranges[k]))
      {
        assert Stores(node.outputs[k], outputs[k].bytes,
                      SliceTensor(View(facts[0], inputs[0]),
                                  SplitRanges(facts[0].logicalShape, node.operation.axis, node.operation.ranges[k])));
      }
      assert NodeMeaning(node, facts, inputs, provider).value == views;
    }
  }

  method ExecuteReshapeNode(node: Node, facts: seq<TensorFacts>, inputs: seq<seq<byte>>, ghost provider: Provider)
    returns (r: Result<ExecutedNode>)
    requires Runnable(node, facts, inputs) && node.operation.Reshape?
    ensures |inputs| == |node.outputs| == 1 && r == Ok(SharedNode(inputs[0]))
    ensures Correct(node, facts, inputs, provider, r.value.outputs)
  {
    hide NewFacts, InferReshape, View;
    UnaryMeaning(node, facts, inputs, provider);
    ReshapeOutput(node.operation.shape, facts[0]);
    ReshapeKeepsElements(node.operation.shape, facts[0], inputs[0]);
    OneView(node.outputs[0], inputs[0]);
    assert node.outputs == [node.outputs[0]] && BytesOf(SharedNode(inputs[0]).outputs) == [inputs[0]];
    return Ok(SharedNode(inputs[0]));
  }

  /** A provider preparation.  `sameView` says that the provider handed back its source view;
      that is possible only when the bytes are the source bytes. */
  method ExecutePrepareNode(node: Node, facts: seq<TensorFacts>, inputs: seq<seq<byte>>, provider: Provider, sameView: bool)
    returns (r: Result<ExecutedNode>)
    requires Runnable(node, facts, inputs) && node.operation.Prepare?
    ensures |facts| == |inputs| == |node.outputs| == 1
    ensures var prepared := provider(node.operation.transform, facts[0].logicalShape, inputs[0]);
            match prepared
            case Err(e) => r == Err(e)
            case Ok(bytes) =>
              r == Ok(if sameView && bytes == inputs[0] then SharedNode(bytes)
                      else ExecutedNode([Produced(bytes, Fresh)], node.operation.transform.scratchBytes))
    ensures r.Ok? ==> Correct(node, facts, inputs, provider, r.value.outputs)
  {
    hide NewFacts, InferPrepare, View;
    UnaryMeaning(node, facts, inputs, provider);
    PrepareOutput(node.operation.transform, facts[0]);
    ghost var out := node.outputs[0];
    SourceBytes(facts[0], inputs[0]);
    var bytes :- provider(node.operation.transform, facts[0].logicalShape, inputs[0]);
    ghost var outputs := [Produced(bytes, Fresh)];
    if Sized(out, bytes) {
      OneView(out, bytes);
      CanonicalView(out, bytes);
    }
    assert node.outputs == [out] && BytesOf(outputs) == [bytes] && BytesOf(SharedNode(bytes).outputs) == [bytes];
    if sameView && bytes == inputs[0] {
      return Ok(SharedNode(bytes));
    }
    return Ok(ExecutedNode([Produced(bytes, Fresh)], node.operation.transform.scratchBytes));
  }

  /** The source bytes of canonical facts are the row-major elements. */
  lemma SourceBytes(f: TensorFacts, bytes: seq<byte>)
    requires ValidFacts(f) && f.Canonical() && Sized(f, bytes)
    ensures Flatten(View(f, bytes).elems) == bytes
  {
    hide NewFacts, View;
    ValidFactsGuarantee(f);
    CanonicalView(f, bytes);
    FlattenOfChunks(bytes, f.Width(), Elements(f.storageShape));
  }

  /** The output of a node shares the bytes of its single input. */
  predicate Shares(node: Node, facts: seq<TensorFacts>, reused: bool) {
    |facts| == 1 && |node.outputs| == 1
    && match node.operation
       case Reshape(_) => true
       case Permute(order, _) => IsIdentityOrder(order) && facts[0] == node.outputs[0]
       case Prepare(_) => reused
       case _ => false
  }

  /** The dispatch on the operation.  `reused` records whether a preparation shared its source. */
  method ExecuteNode(node: Node, facts: seq<TensorFacts>, inputs: seq<seq<byte>>, provider: Provider, sameView: bool, avx2: bool)
    returns (r: Result<ExecutedNode>, reused: bool)
    requires Runnable(node, facts, inputs)
    ensures r.Ok? ==> Correct(node, facts, inputs, provider, r.value.outputs)
    ensures reused ==> node.operation.Prepare? && |inputs| == |node.outputs| == 1 && r == Ok(SharedNode(inputs[0]))
    ensures r.Ok? ==> r.value.transientScratch
                      == if node.operation.Prepare? && !reused then node.operation.transform.scratchBytes else 0
    ensures r.Ok? ==> forall i :: 0 <= i < |r.value.outputs| ==>
                        (r.value.outputs[i].origin.Alias? <==> Shares(node, facts, reused))
    ensures r.Ok? && node.operation.Prepare? ==>
              |facts| == |inputs| == |r.value.outputs| == 1
              && provider(node.operation.transform, facts[0].logicalShape, inputs[0]) == Ok(r.value.outputs[0].bytes)
    ensures r.Err? ==>
              EmptyLimit(node, r.error)
              || (node.operation.Prepare? && |facts| == |inputs| == 1
                  && provider(node.operation.transform, facts[0].logicalShape, inputs[0]) == Err(r.error))
  {
    hide NewFacts, Correct, InferConcat, InferPermute, InferPad, InferSlice, InferSplit, InferReshape, InferPrepare, AllSized;
    hide EmptyLimit;
    reused := false;
    match node.operation
    case Concat(_) => r := ExecuteConcatNode(node, facts, inputs, provider);
    case Permute(_, _) => r := ExecutePermuteNode(node, facts, inputs, avx2, provider);
    case Pad(_, _, _) => r := ExecutePadNode(node, facts, inputs, provider);
    case Slice(_) => r := ExecuteSliceNode(node, facts, inputs, provider);
    case Split(_, _) => r := ExecuteSplitNode(node, facts, inputs, provider);
    case Reshape(_) => r := ExecuteReshapeNode(node, facts, inputs, provider);
    case Prepare(_) =>
      r := ExecutePrepareNode(node, facts, inputs, provider, sameView);
      reused := r.Ok? && r.value.outputs[0].origin.Alias?;
  }
}

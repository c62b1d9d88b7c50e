/** The host executor: the loop over the nodes, the returned bytes and the reported scratch. */
module HostExecutor {
  import opened Checked
  import opened Shapes
  import opened Buffers
  import opened Facts
  import opened Operations
  import opened Concatenation
  import opened Graphs
  import opened Evaluation
  import opened Liveness
  import opened GraphSchedule
  import opened Scratch
  import opened NodeExecution
  import opened Execution
  import opened NodeBytes

  // ---------- Why an execution can fail ----------

  /** The provider errs on a source, or returns bytes of another length than the plan pins. */
  predicate RefusesSource(provider: Provider, t: PlannedTransform, shape: Shape, bytes: seq<byte>, e: Error) {
    match provider(t, shape, bytes)
    case Err(f) => e == f
    case Ok(prepared) => e == ViewLength && |prepared| != t.outputSize
  }

  /** Node `k` is a preparation whose provider fails on the evaluated bytes of its own source. */
  ghost predicate PreparationFails(g: Graph, inputs: seq<seq<byte>>, provider: Provider, k: nat, e: Error)
    requires ValidGraph(g) && InputsSized(g, inputs) && k < |g.nodes|
  {
    var node := g.nodes[k];
    node.operation.Prepare? && |node.inputs| == 1 && Available(g, node.inputs[0], |g.nodes|)
    && exists bytes :: Holds(g, inputs, provider, node.inputs[0], bytes)
                       && RefusesSource(provider, node.operation.transform, FactsOf(g, node.inputs[0]).logicalShape, bytes, e)
  }

  predicate PinsBuiltin(node: Node) {
    node.implementation == BuiltinImplementation(node.operation)
  }

  ghost predicate NodeCause(g: Graph, inputs: seq<seq<byte>>, provider: Provider, k: nat, e: Error)
    requires ValidGraph(g) && InputsSized(g, inputs) && k < |g.nodes|
  {
    PreparationFails(g, inputs, provider, k, e)
    || (e == Unsupported && !PinsBuiltin(g.nodes[k]))
    || EmptyLimit(g.nodes[k], e)
  }

  /** The complete list of failures.  No entry is an internal inconsistency: a value that is not
      live, an unavailable value or an underflow can not occur. */
  ghost predicate FailureCause(g: Graph, inputs: seq<seq<byte>>, provider: Provider, cancelled: nat -> bool, e: Error)
    requires ValidGraph(g)
  {
    (e == Cancelled && exists n :: cancelled(n))
    || (e == Binding && |inputs| != |g.inputs|)
    || (e == ViewLength && |inputs| == |g.inputs| && !InputsSized(g, inputs))
    || (e == ResourceLimit && Estimate(g).Err?)
    || (InputsSized(g, inputs) && exists k :: 0 <= k < |g.nodes| && NodeCause(g, inputs, provider, k, e))
  }

  /** A failing preparation fails the reference evaluation of its node with the same error. */
  lemma PreparationFailsAsEvaluated(g: Graph, inputs: seq<seq<byte>>, provider: Provider, k: nat, e: Error)
    requires ValidGraph(g) && InputsSized(g, inputs) && k < |g.nodes| && PreparationFails(g, inputs, provider, k, e)
    ensures EvalNode(g, InputTensors(g, inputs), provider, k) == Err(e)
  {
    hide ValidGraph, NewFacts, InferPrepare, InputsSized, InputTensors, EvalNode, View, Holds;
    var node := g.nodes[k];
    var v := node.inputs[0];
    var bytes :| Holds(g, inputs, provider, v, bytes)
                 && RefusesSource(provider, node.operation.transform, FactsOf(g, v).logicalShape, bytes, e);
    NodeEvaluates(g, inputs, provider, k, [bytes]);
    var facts := AllFacts(g, node.inputs);
    assert facts == [facts[0]] && facts[0] == FactsOf(g, v);
    PrepareOutput(node.operation.transform, facts[0]);
    PreparedSize(node.operation.transform, facts[0]);
    SourceBytes(facts[0], bytes);
    assert Views(facts, [bytes])[0] == View(facts[0], bytes);
  }

  // ---------- One node ----------

  method ValidateViews(facts: seq<TensorFacts>, outputs: seq<Produced>) returns (r: Result<()>)
    requires |facts| == |outputs| && forall i :: 0 <= i < |facts| ==> ValidFacts(facts[i])
    ensures r.Ok? <==> AllSized(facts, BytesOf(outputs))
    ensures r.Err? ==> r.error == ViewLength
  {
    hide NewFacts;
    var i := 0;
    while i < |outputs|
      invariant 0 <= i <= |outputs| && forall j :: 0 <= j < i ==> Sized(facts[j], BytesOf(outputs)[j])
    {
      if |outputs[i].bytes| != facts[i].byteLen {
        assert !Sized(facts[i], BytesOf(outputs)[i]);
        return Err(ViewLength);
      }
      i := i + 1;
    }
    return Ok(());
  }

  /** A preparation whose bytes differ from the inferred length missized them. */
  lemma MissizedPreparation(g: Graph, k: nat, args: seq<seq<byte>>, provider: Provider, outputs: seq<Produced>)
    requires ValidGraph(g) && k < |g.nodes| && AllAvailable(g, g.nodes[k].inputs, |g.nodes|)
    requires Runnable(g.nodes[k], AllFacts(g, g.nodes[k].inputs), args)
    requires Correct(g.nodes[k], AllFacts(g, g.nodes[k].inputs), args, provider, outputs)
    requires g.nodes[k].operation.Prepare? ==>
               |args| == |g.nodes[k].inputs| == |outputs| == 1
               && provider(g.nodes[k].operation.transform, AllFacts(g, g.nodes[k].inputs)[0].logicalShape, args[0])
                  == Ok(outputs[0].bytes)
    requires !OutputsSized(g.nodes[k], outputs)
    ensures g.nodes[k].operation.Prepare? && |g.nodes[k].inputs| == |args| == 1
    ensures RefusesSource(provider, g.nodes[k].operation.transform, AllFacts(g, g.nodes[k].inputs)[0].logicalShape, args[0], ViewLength)
  {
    hide ValidGraph, NewFacts, InferPrepare, NodeMeaning;
    var node := g.nodes[k];
    NodeIsTyped(g, k);
    var input := AllFacts(g, node.inputs)[0];
    PrepareOutput(node.operation.transform, input);
    PreparedSize(node.operation.transform, input);
    assert BytesOf(outputs)[0] == outputs[0].bytes && node.outputs == [node.outputs[0]];
  }

  lemma PreparedSize(t: PlannedTransform, input: TensorFacts)
    requires InferPrepare(t, input).Ok? && |InferPrepare(t, input).value| == 1
    ensures InferPrepare(t, input).value[0].byteLen == t.outputSize
  {
    hide ContiguousStrides;
    ContiguousLength(input.logicalShape, t.target);
  }

  lemma ContiguousLength(shape: Shape, rep: Representation)
    requires ContiguousFacts(shape, rep).Ok?
    ensures rep.dtype.ByteLen(shape) == Ok(ContiguousFacts(shape, rep).value.byteLen)
  {
    hide NewFacts;
    NewFactsIsValid(shape, shape, ContiguousStrides(shape).value, ContiguousStrides(shape).value, rep,
                    rep.dtype.ByteLen(shape).value);
  }

  /** A failed node has one of the listed causes. */
  lemma NodeFailure(g: Graph, inputs: seq<seq<byte>>, k: nat, args: seq<seq<byte>>, provider: Provider, e: Error)
    requires ValidGraph(g) && InputsSized(g, inputs) && k < |g.nodes| && AllAvailable(g, g.nodes[k].inputs, |g.nodes|)
    requires |args| == |g.nodes[k].inputs|
    requires forall i :: 0 <= i < |args| ==> Holds(g, inputs, provider, g.nodes[k].inputs[i], args[i])
    requires EmptyLimit(g.nodes[k], e)
             || (g.nodes[k].operation.Prepare? && |args| == 1
                 && RefusesSource(provider, g.nodes[k].operation.transform, AllFacts(g, g.nodes[k].inputs)[0].logicalShape, args[0], e))
    ensures NodeCause(g, inputs, provider, k, e)
  {
    hide ValidGraph, InputsSized, Holds, EmptyLimit;
  }

  /** The state between two nodes. */
  ghost predicate Between(g: Graph, inputs: seq<seq<byte>>, provider: Provider, runtime: Runtime, s: Schedule, k: nat)
    requires ValidGraph(g) && InputsSized(g, inputs) && k <= |g.nodes|
  {
    Accounted(s, SizeOf(g)) && Tracks(g, s, k) && Mirrors(runtime, s) && AllHold(g, inputs, provider, runtime)
  }

  /** Published outputs hold along with what was there. */
  lemma PublishedHold(g: Graph, inputs: seq<seq<byte>>, provider: Provider, k: nat, before: Runtime, runtime: Runtime,
                      args: seq<seq<byte>>, outputs: seq<Produced>, reused: bool)
    requires ValidGraph(g) && InputsSized(g, inputs) && k < |g.nodes| && |args| == |g.nodes[k].inputs|
    requires forall i :: 0 <= i < |args| ==> Holds(g, inputs, provider, g.nodes[k].inputs[i], args[i])
    requires AllAvailable(g, g.nodes[k].inputs, |g.nodes|) && Runnable(g.nodes[k], AllFacts(g, g.nodes[k].inputs), args)
    requires Correct(g.nodes[k], AllFacts(g, g.nodes[k].inputs), args, provider, outputs) && OutputsSized(g.nodes[k], outputs)
    requires reused ==> g.nodes[k].operation.Prepare? && |args| == |outputs| == 1
    requires forall o :: 0 <= o < |outputs| ==>
               (outputs[o].origin.Alias? <==> Shares(g.nodes[k], AllFacts(g, g.nodes[k].inputs), reused))
    requires AllHold(g, inputs, provider, before) && Published(runtime, before, k, outputs, |outputs|)
    ensures AllHold(g, inputs, provider, runtime)
  {
    hide ValidGraph, NewFacts, InferOutputs, InputsSized, Holds, Correct, OutputsSized, Runnable, Shares;
    forall v | v in runtime ensures Holds(g, inputs, provider, v, runtime[v].bytes) {
      if v !in before {
        OutputHolds(g, inputs, provider, k, args, outputs, reused, v.output);
      }
    }
  }

  lemma KeptHold(g: Graph, inputs: seq<seq<byte>>, provider: Provider, runtime: Runtime, keys: set<ValueRef>)
    requires ValidGraph(g) && InputsSized(g, inputs) && AllHold(g, inputs, provider, runtime)
    ensures AllHold(g, inputs, provider, Kept(runtime, keys))
  {
    hide ValidGraph, InputsSized, Holds;
  }

  /** Sharing of a finished node, in the terms of the schedule. */
  lemma SharingOf(g: Graph, k: nat, args: seq<seq<byte>>, provider: Provider, outputs: seq<Produced>, reused: bool)
    requires ValidGraph(g) && k < |g.nodes| && AllAvailable(g, g.nodes[k].inputs, |g.nodes|)
    requires Runnable(g.nodes[k], AllFacts(g, g.nodes[k].inputs), args) && OutputsSized(g.nodes[k], outputs)
    requires Correct(g.nodes[k], AllFacts(g, g.nodes[k].inputs), args, provider, outputs)
    requires reused ==> g.nodes[k].operation.Prepare? && |args| == |g.nodes[k].outputs| == 1 && outputs[0].bytes == args[0]
    requires forall o :: 0 <= o < |outputs| ==>
               (outputs[o].origin.Alias? <==> Shares(g.nodes[k], AllFacts(g, g.nodes[k].inputs), reused))
    ensures CanReuse(g, k, reused) && |outputs| == |g.nodes[k].outputs|
    ensures forall o :: 0 <= o < |outputs| ==>
              (outputs[o].origin.Alias? <==> SharesInput(g, k, o, reused))
              && (outputs[o].origin.Alias? ==> outputs[o].origin.input == 0 && |args| == 1)
  {
    hide ValidGraph, NewFacts, InferOutputs, NodeMeaning, Shares, SharesInput, PadsZero;
    assert Origins(g.nodes[k], args, outputs);
    forall o | 0 <= o < |outputs|
      ensures outputs[o].origin.Alias? <==> SharesInput(g, k, o, reused)
      ensures outputs[o].origin.Alias? ==> outputs[o].origin.input == 0 && |args| == 1
    {
      SharesMatches(g, k, reused, o);
    }
    if reused {
      var v := g.nodes[k].inputs[0];
      assert BytesOf(outputs)[0] == outputs[0].bytes && FactsIn(g.inputs, g.nodes, v) == Some(FactsOf(g, v));
    }
  }

  /** The parts of a node step, one after the other. */
  lemma StepParts(s: Schedule, g: Graph, k: nat, reused: bool)
    requires k < |g.nodes|
    ensures NodeStep(s, g, k, reused)
            == var produced :- Produce(s, g, k, reused, 0);
                var observed :- ObserveTransient(produced, Transient(g, k, reused));
                var consumed :- ConsumeInputs(observed, g.nodes[k].inputs);
                RemoveUnused(consumed, OutputsOf(k, |g.nodes[k].outputs|))
  {
    hide Produce, ObserveTransient, ConsumeInputs, RemoveUnused;
  }

  /** The accounting after a node was executed: publish, observe, consume, clean up. */
  method AccountNode(g: Graph, k: nat, runtime: Runtime, schedule: LivenessSchedule, args: seq<RuntimeValue>,
                     execution: ExecutedNode, ghost reused: bool)
    returns (r: Result<Runtime>, ghost published: Runtime)
    requires k < |g.nodes| && |execution.outputs| == |g.nodes[k].outputs| && Mirrors(runtime, schedule.State())
    requires |args| == |g.nodes[k].inputs| && NotProduced(schedule.State(), k, 0)
    requires forall i :: 0 <= i < |args| ==> g.nodes[k].inputs[i] in runtime && args[i] == runtime[g.nodes[k].inputs[i]]
    requires forall o :: 0 <= o < |execution.outputs| ==>
               (execution.outputs[o].origin.Alias? <==> SharesInput(g, k, o, reused))
               && (execution.outputs[o].origin.Alias? ==> execution.outputs[o].origin.input == 0 && |args| == 1)
    requires execution.transientScratch == Transient(g, k, reused)
    modifies schedule
    ensures var spec := NodeStep(old(schedule.State()), g, k, reused);
            (spec.Ok? ==> r.Ok? && schedule.State() == spec.value && Mirrors(r.value, spec.value)
                          && Published(published, runtime, k, execution.outputs, |execution.outputs|)
                          && exists keys, fewer :: r.value == Kept(Kept(published, keys), fewer))
            && (spec.Err? ==> r == Err(spec.error))
  {
    hide Produce, ObserveTransient, ConsumeInputs, RemoveUnused, NodeStep, Published, Mirrors, Kept, SharesInput, NotProduced;
    StepParts(schedule.State(), g, k, reused);
    published := runtime;
    var grown :- PublishOutputs(g, k, schedule, runtime, args, execution.outputs, reused);
    published := grown;
    MirrorsAnyPeak(grown, schedule.State(), execution.transientScratch);
    var _ :- schedule.Observe(execution.transientScratch);
    var consumed :- ConsumeRuntimeInputs(g.nodes[k].inputs, schedule, grown);
    ghost var keys := schedule.State().values.Keys;
    var left :- RemoveUnusedRuntime(OutputsOf(k, |g.nodes[k].outputs|), schedule, consumed);
    assert left == Kept(Kept(published, keys), schedule.State().values.Keys);
    return Ok(left), published;
  }

  lemma MirrorsAnyPeak(runtime: Runtime, s: Schedule, scratch: nat)
    requires Mirrors(runtime, s)
    ensures ObserveTransient(s, scratch).Ok? ==> Mirrors(runtime, ObserveTransient(s, scratch).value)
  {
  }

  /** One node: look up, execute, validate, account. */
  method ExecuteStep(g: Graph, k: nat, ghost inputs: seq<seq<byte>>, runtime: Runtime, schedule: LivenessSchedule,
                     provider: Provider, sameView: bool, avx2: bool)
    returns (r: Result<Runtime>, reused: bool, ghost published: Runtime)
    requires ValidGraph(g) && InputsSized(g, inputs) && k < |g.nodes|
    requires Between(g, inputs, provider, runtime, schedule.State(), k)
    modifies schedule
    ensures CanReuse(g, k, reused)
    ensures r.Ok? ==> NodeStep(old(schedule.State()), g, k, reused) == Ok(schedule.State())
                      && Between(g, inputs, provider, r.value, schedule.State(), k + 1)
    ensures r.Ok? ==> g.nodes[k].implementation == BuiltinImplementation(g.nodes[k].operation)
    ensures r.Ok? ==> forall o: nat :: o < |g.nodes[k].outputs| ==>
                        NodeOutput(k, o) in published && Holds(g, inputs, provider, NodeOutput(k, o), published[NodeOutput(k, o)].bytes)
    ensures r.Err? ==> NodeCause(g, inputs, provider, k, r.error)
                       || (r.error == ResourceLimit && NodeStep(old(schedule.State()), g, k, reused).Err?)
  {
    hide NewFacts, InferOutputs, ValidInputs, ValidNodes, InputsSized, Holds, Correct, Shares, SharesInput, NodeStep, Accounted;
    hide Tracks, NodeCause, EmptyLimit, CanReuse, Published, Kept, Mirrors;
    reused, published := false, runtime;
    SharedInBoth(g, k, 0, false, false);
    var node := g.nodes[k];
    if !PinsBuiltin(node) {
      r := Err(Unsupported);
      assert NodeCause(g, inputs, provider, k, Unsupported) by { UnsupportedCause(g, inputs, k, provider); }
      return;
    }
    NodeIsTyped(g, k);
    ghost var before := schedule.State();
    NodeInputsLive(g, before, k);
    MirrorsKeys(runtime, before);
    var args :- CollectArguments(runtime, node.inputs);
    var bytes := ArgumentBytes(args);
    var facts := AllFacts(g, node.inputs);
    NodeRunnable(g, inputs, provider, k, runtime, bytes);
    var execution, shared := ExecuteNode(node, facts, bytes, provider, sameView, avx2);
    if execution.Err? {
      NodeFailure(g, inputs, k, bytes, provider, execution.error);
      r := Err(execution.error);
      return;
    }
    var outputs := execution.value.outputs;
    CorrectCount(node, facts, bytes, provider, outputs);
    if |outputs| != |node.outputs| {
      r := Err(Integrity);
      return;
    }
    NodeOutputsValid(g, k);
    var valid := ValidateViews(node.outputs, outputs);
    if valid.Err? {
      MissizedPreparation(g, k, bytes, provider, outputs);
      NodeFailure(g, inputs, k, bytes, provider, ViewLength);
      r := Err(ViewLength);
      return;
    }
    reused := shared;
    SharingOf(g, k, bytes, provider, outputs, reused);
    NodeStepTracks(g, before, k, reused);
    r, published := AccountNode(g, k, runtime, schedule, args, execution.value, reused);
    if r.Ok? {
      PublishedHold(g, inputs, provider, k, runtime, published, bytes, outputs, reused);
      ghost var keys, fewer :| r.value == Kept(Kept(published, keys), fewer);
      KeptHold(g, inputs, provider, published, keys);
      KeptHold(g, inputs, provider, Kept(published, keys), fewer);
      PublishedAll(published, runtime, k, outputs);
    }
  }

  lemma PublishedAll(published: Runtime, runtime: Runtime, k: nat, outputs: seq<Produced>)
    requires Published(published, runtime, k, outputs, |outputs|)
    ensures forall o: nat :: o < |outputs| ==> NodeOutput(k, o) in published
  {
  }

  /** The values recorded so far, and those of one more node. */
  ghost function Traced(trace: map<ValueRef, seq<byte>>, published: Runtime, k: nat, count: nat): map<ValueRef, seq<byte>>
    requires forall o: nat :: o < count ==> NodeOutput(k, o) in published
  {
    trace + (map o: nat | o < count :: NodeOutput(k, o) := published[NodeOutput(k, o)].bytes)
  }

  lemma TraceMore(g: Graph, inputs: seq<seq<byte>>, provider: Provider, trace: map<ValueRef, seq<byte>>, published: Runtime, k: nat)
    requires ValidGraph(g) && InputsSized(g, inputs) && k < |g.nodes| && TraceHolds(g, inputs, provider, trace, k)
    requires forall o: nat :: o < |g.nodes[k].outputs| ==>
               NodeOutput(k, o) in published && Holds(g, inputs, provider, NodeOutput(k, o), published[NodeOutput(k, o)].bytes)
    ensures TraceHolds(g, inputs, provider, Traced(trace, published, k, |g.nodes[k].outputs|), k + 1)
  {
    hide ValidGraph, InputsSized, Holds;
    var next := Traced(trace, published, k, |g.nodes[k].outputs|);
    forall v ensures v in next <==> Available(g, v, k + 1) {
    }
  }

  lemma TraceStarts(g: Graph, inputs: seq<seq<byte>>, provider: Provider, runtime: Runtime)
    requires ValidGraph(g) && InputsSized(g, inputs) && Loaded(g, inputs, runtime, |inputs|) && |inputs| == |g.inputs|
    ensures TraceHolds(g, inputs, provider, map v | v in runtime :: runtime[v].bytes, 0)
  {
    hide ValidGraph, InputsSized, Holds;
    forall v | v in runtime ensures Holds(g, inputs, provider, v, runtime[v].bytes) {
      InputHolds(g, inputs, provider, v.input);
    }
  }

  lemma TraceEnds(g: Graph, inputs: seq<seq<byte>>, provider: Provider, trace: map<ValueRef, seq<byte>>, output: seq<byte>)
    requires ValidGraph(g) && InputsSized(g, inputs) && TraceHolds(g, inputs, provider, trace, |g.nodes|)
    requires Holds(g, inputs, provider, g.output, output)
    ensures Computed(g, inputs, provider, trace) && g.output in trace && trace[g.output] == output
    ensures Evaluates(g, inputs, provider, output)
  {
    hide ValidGraph, InputsSized, Holds, Computed;
    HeldTraceIsComputed(g, inputs, provider, trace);
    OutputIsAvailable(g);
    ExecutionIsDeterministic(g, inputs, provider, trace[g.output], output);
  }

  lemma UnsupportedCause(g: Graph, inputs: seq<seq<byte>>, k: nat, provider: Provider)
    requires ValidGraph(g) && InputsSized(g, inputs) && k < |g.nodes| && !PinsBuiltin(g.nodes[k])
    ensures NodeCause(g, inputs, provider, k, Unsupported)
  {
    hide ValidGraph, InputsSized;
  }

  lemma MirrorsKeys(runtime: Runtime, s: Schedule)
    requires Mirrors(runtime, s)
    ensures runtime.Keys == s.values.Keys
  {
  }

  lemma CorrectCount(node: Node, facts: seq<TensorFacts>, inputs: seq<seq<byte>>, provider: Provider, outputs: seq<Produced>)
    requires Runnable(node, facts, inputs) && Correct(node, facts, inputs, provider, outputs)
    ensures |outputs| == |node.outputs|
  {
    hide NewFacts, InferOutputs;
  }

  lemma NodeOutputsValid(g: Graph, k: nat)
    requires ValidGraph(g) && k < |g.nodes|
    ensures forall o :: 0 <= o < |g.nodes[k].outputs| ==> ValidFacts(g.nodes[k].outputs[o])
  {
    hide ValidGraph, NewFacts;
    forall o | 0 <= o < |g.nodes[k].outputs| ensures ValidFacts(g.nodes[k].outputs[o]) {
      ValuesAreValid(g, NodeOutput(k, o));
    }
  }

  lemma NodeRunnable(g: Graph, inputs: seq<seq<byte>>, provider: Provider, k: nat, runtime: Runtime, args: seq<seq<byte>>)
    requires ValidGraph(g) && InputsSized(g, inputs) && k < |g.nodes| && AllHold(g, inputs, provider, runtime)
    requires |args| == |g.nodes[k].inputs|
    requires forall i :: 0 <= i < |args| ==> g.nodes[k].inputs[i] in runtime && runtime[g.nodes[k].inputs[i]].bytes == args[i]
    ensures AllAvailable(g, g.nodes[k].inputs, |g.nodes|)
    ensures Runnable(g.nodes[k], AllFacts(g, g.nodes[k].inputs), args)
    ensures forall i :: 0 <= i < |args| ==> Holds(g, inputs, provider, g.nodes[k].inputs[i], args[i])
  {
    hide ValidGraph, NewFacts, InferOutputs, InputsSized, Holds;
    NodeIsTyped(g, k);
    NodeEvaluates(g, inputs, provider, k, args);
  }

  // ---------- The graph ----------

  /** The runtime before the first node. */
  ghost predicate Loaded(g: Graph, inputs: seq<seq<byte>>, runtime: Runtime, n: nat) {
    n <= |inputs|
    && forall v :: (v in runtime <==> v.Input? && v.input < n)
                   && (v in runtime ==> runtime[v] == RuntimeValue(inputs[v.input], None))
  }

  method LoadInputs(g: Graph, inputs: seq<seq<byte>>) returns (r: Result<Runtime>)
    requires ValidGraph(g) && |inputs| == |g.inputs|
    ensures r.Ok? <==> InputsSized(g, inputs)
    ensures r.Ok? ==> Loaded(g, inputs, r.value, |inputs|)
    ensures r.Err? ==> r.error == ViewLength
  {
    hide NewFacts, ValidNodes;
    var runtime: Runtime := map[];
    var i := 0;
    while i < |inputs|
      invariant 0 <= i <= |inputs| && Loaded(g, inputs, runtime, i)
      invariant forall j :: 0 <= j < i ==> Sized(InputFacts(g)[j], inputs[j])
    {
      if |inputs[i]| != g.inputs[i].facts.byteLen {
        assert !Sized(InputFacts(g)[i], inputs[i]);
        return Err(ViewLength);
      }
      runtime := runtime[Input(i) := RuntimeValue(inputs[i], None)];
      i := i + 1;
    }
    return Ok(runtime);
  }

  lemma LoadedIsBetween(g: Graph, inputs: seq<seq<byte>>, provider: Provider, runtime: Runtime)
    requires ValidGraph(g) && InputsSized(g, inputs) && Loaded(g, inputs, runtime, |inputs|) && Initial(g).Ok?
    ensures Between(g, inputs, provider, runtime, Initial(g).value, 0)
  {
    hide ValidGraph, NewFacts, Accounted, Tracks, Holds, Pending;
    InitialTracks(g);
    forall v | v in runtime ensures Holds(g, inputs, provider, v, runtime[v].bytes) {
      InputHolds(g, inputs, provider, v.input);
    }
  }

  lemma InputHolds(g: Graph, inputs: seq<seq<byte>>, provider: Provider, i: nat)
    requires ValidGraph(g) && InputsSized(g, inputs) && i < |inputs|
    ensures Holds(g, inputs, provider, Input(i), inputs[i])
  {
    hide ValidGraph, NewFacts, View;
    assert |inputs| == |g.inputs|;
    ValuesAreValid(g, Input(i));
    assert InputFacts(g)[i] == FactsOf(g, Input(i));
  }

  lemma {:induction false} RunDependsOnPrefix(g: Graph, a: seq<bool>, b: seq<bool>, k: nat)
    requires k <= |g.nodes| && k <= |a| && k <= |b| && forall i :: 0 <= i < k ==> a[i] == b[i]
    ensures Run(g, a, k) == Run(g, b, k)
  {
    hide NodeStep;
    if k > 0 {
      RunDependsOnPrefix(g, a, b, k - 1);
    }
  }

  /** A run that exceeds 64 bits makes the estimate exceed them too. */
  lemma OverflowIsEstimated(g: Graph, reuse: seq<bool>, k: nat)
    requires ValidGraph(g) && Reuses(g, reuse) && k <= |g.nodes| && Run(g, reuse, k).Err?
    ensures Estimate(g).Err?
  {
    hide ValidGraph, Run, CanReuse;
    NoReuseIsValid(g);
    if Run(g, NoReuse(g), k).Ok? {
      RunCoupled(g, NoReuse(g), reuse, k);
    } else {
      FailureStays(g, NoReuse(g), k, |g.nodes|);
    }
  }

  /** Marks one more node. */
  lemma RunOneMore(g: Graph, reuse: seq<bool>, k: nat, reused: bool, s: Schedule)
    requires Reuses(g, reuse) && k < |g.nodes| && CanReuse(g, k, reused) && Run(g, reuse, k) == Ok(s)
    ensures Reuses(g, reuse[k := reused]) && Run(g, reuse[k := reused], k + 1) == NodeStep(s, g, k, reused)
  {
    hide NodeStep, CanReuse;
    RunDependsOnPrefix(g, reuse, reuse[k := reused], k);
  }

  /** What a successful execution returns. */
  ghost predicate Evaluates(g: Graph, inputs: seq<seq<byte>>, provider: Provider, output: seq<byte>)
    requires ValidGraph(g)
  {
    InputsSized(g, inputs) && Holds(g, inputs, provider, g.output, output)
  }

  /** Executes a graph.  `sameView(k)` says whether the provider of node `k` handed back its
      source view, and `cancelled(n)` whether the token is cancelled at the n-th check; both are
      arbitrary.  The second result records the preparations that shared their source, and the
      third the bytes of every value, each computed from those of its node's inputs. */
  method ExecuteHost(g: Graph, inputs: seq<seq<byte>>, provider: Provider, sameView: nat -> bool, avx2: bool,
                     cancelled: nat -> bool)
    returns (r: Result<HostExecution>, reuse: seq<bool>, ghost trace: map<ValueRef, seq<byte>>)
    requires ValidGraph(g)
    ensures r.Ok? ==> Evaluates(g, inputs, provider, r.value.output)
    ensures r.Ok? ==> Computed(g, inputs, provider, trace) && g.output in trace && trace[g.output] == r.value.output
    ensures r.Ok? ==> Reuses(g, reuse) && Reported(g, reuse) == Ok(r.value.peakScratchBytes)
    ensures r.Ok? ==> forall k :: 0 <= k < |g.nodes| ==> g.nodes[k].implementation == BuiltinImplementation(g.nodes[k].operation)
    ensures r.Ok? ==> forall n :: 0 <= n <= |g.nodes| + 1 ==> !cancelled(n)
    ensures r.Err? ==> FailureCause(g, inputs, provider, cancelled, r.error)
  {
    hide ValidGraph, InputsSized, NodeStep, Run, Between, CanReuse, NodeCause, Estimate, TraceHolds, Computed, Holds, Loaded;
    hide Traced, Reported, Evaluates, Initial, ScratchExcluding;
    reuse, trace := NoReuse(g), map[];
    NoReuseIsValid(g);
    if cancelled(0) {
      r := Err(Cancelled);
      return;
    }
    if |inputs| != |g.inputs| {
      r := Err(Binding);
      return;
    }
    var started := NewSchedule(g);
    if started.Err? {
      assert Run(g, reuse, 0).Err? by { RunStarts(g, reuse); }
      OverflowIsEstimated(g, reuse, 0);
      r := Err(started.error);
      return;
    }
    var schedule := started.value;
    RunStarts(g, reuse);
    var loaded := LoadInputs(g, inputs);
    if loaded.Err? {
      r := Err(loaded.error);
      return;
    }
    var runtime := loaded.value;
    LoadedIsBetween(g, inputs, provider, runtime);
    TraceStarts(g, inputs, provider, runtime);
    trace := map v | v in runtime :: runtime[v].bytes;
    var k := 0;
    while k < |g.nodes|
      invariant 0 <= k <= |g.nodes| && Reuses(g, reuse) && Run(g, reuse, k) == Ok(schedule.State())
      invariant TraceHolds(g, inputs, provider, trace, k) && forall n :: 0 <= n <= k ==> !cancelled(n)
      invariant forall i :: 0 <= i < k ==> g.nodes[i].implementation == BuiltinImplementation(g.nodes[i].operation)
      invariant Between(g, inputs, provider, runtime, schedule.State(), k) && fresh(schedule)
    {
      if cancelled(k + 1) {
        r := Err(Cancelled);
        return;
      }
      ghost var before := schedule.State();
      var next, reused, published := ExecuteStep(g, k, inputs, runtime, schedule, provider, sameView(k), avx2);
      RunOneMore(g, reuse, k, reused, before);
      reuse := reuse[k := reused];
      if next.Err? {
        if !NodeCause(g, inputs, provider, k, next.error) {
          OverflowIsEstimated(g, reuse, k + 1);
        }
        r := Err(next.error);
        return;
      }
      TraceMore(g, inputs, provider, trace, published, k);
      trace := Traced(trace, published, k, |g.nodes[k].outputs|);
      runtime, k := next.value, k + 1;
    }
    if cancelled(k + 1) {
      r := Err(Cancelled);
      return;
    }
    OutputHeld(g, inputs, provider, reuse, runtime, schedule.State());
    if g.output !in runtime {
      r := Err(Integrity);
      return;
    }
    TraceEnds(g, inputs, provider, trace, runtime[g.output].bytes);
    var peak := schedule.Scratch(g.output);
    r := Ok(HostExecution(runtime[g.output].bytes, peak.value));
  }

  lemma RunStarts(g: Graph, reuse: seq<bool>)
    ensures Run(g, reuse, 0) == Initial(g)
  {
  }

  /** After the last node the output is held and its accounting is defined. */
  lemma OutputHeld(g: Graph, inputs: seq<seq<byte>>, provider: Provider, reuse: seq<bool>, runtime: Runtime, s: Schedule)
    requires ValidGraph(g) && InputsSized(g, inputs) && Reuses(g, reuse) && Run(g, reuse, |g.nodes|) == Ok(s)
    requires Between(g, inputs, provider, runtime, s, |g.nodes|)
    ensures g.output in runtime && Holds(g, inputs, provider, g.output, runtime[g.output].bytes)
    ensures ScratchExcluding(s, g.output).Ok? && Reported(g, reuse) == ScratchExcluding(s, g.output)
  {
    hide ValidGraph, InputsSized, Holds, CanReuse, Run, Accounted, Tracks;
    FinalOutput(g, reuse);
  }

  /** The returned bytes are an external input's own bytes exactly when the alias query says so,
      and otherwise their padding is zero. */
  lemma ReturnedBytes(g: Graph, inputs: seq<seq<byte>>, provider: Provider, output: seq<byte>)
    requires ValidGraph(g) && Evaluates(g, inputs, provider, output)
    ensures Available(g, g.output, |g.nodes|) && ValidFacts(FactsOf(g, g.output)) && Sized(FactsOf(g, g.output), output)
    ensures EvalValue(g, InputTensors(g, inputs), provider, g.output) == Ok(View(FactsOf(g, g.output), output))
    ensures match InputAlias(g, g.output)
            case Some(i) => i < |inputs| && output == inputs[i]
            case None => PadsZero(FactsOf(g, g.output), output)
  {
    hide ValidGraph, InputsSized, View;
    ValuesAreValid(g, g.output);
  }

  /** Two successful executions return the same bytes, whatever views the providers reuse and
      whichever kernels run. */
  lemma ExecutionIsDeterministic(g: Graph, inputs: seq<seq<byte>>, provider: Provider, a: seq<byte>, b: seq<byte>)
    requires ValidGraph(g) && Evaluates(g, inputs, provider, a) && Evaluates(g, inputs, provider, b)
    ensures a == b
  {
    hide ValidGraph, NewFacts, InputsSized, View, PadsZero, EvalValue;
    ReturnedBytes(g, inputs, provider, a);
    ReturnedBytes(g, inputs, provider, b);
    if InputAlias(g, g.output).None? {
      ViewDeterminesBytes(FactsOf(g, g.output), a, b);
    }
  }
}

/** Host execution of a graph: values are produced in topological order, kept while they have
    uses left, and removed early.  The result is proved equal to the reference evaluation. */
module Execution {
  import opened Checked
  import opened Buffers
  import opened Facts
  import opened Operations
  import opened Concatenation
  import opened Graphs
  import opened Evaluation
  import opened Liveness
  import opened GraphSchedule
  import opened NodeExecution

  datatype RuntimeValue = RuntimeValue(bytes: seq<byte>, allocation: Option<nat>)

  type Runtime = map<ValueRef, RuntimeValue>

  datatype HostExecution = HostExecution(output: seq<byte>, peakScratchBytes: nat)

  // ---------- What a live value holds ----------

  function InputFacts(g: Graph): (r: seq<TensorFacts>)
    ensures |r| == |g.inputs|
  {
    seq(|g.inputs|, i requires 0 <= i < |g.inputs| => g.inputs[i].facts)
  }

  /** The external bytes match the declared inputs. */
  ghost predicate InputsSized(g: Graph, inputs: seq<seq<byte>>) {
    AllSized(InputFacts(g), inputs)
  }

  /** The logical tensors of the external inputs. */
  ghost function InputTensors(g: Graph, inputs: seq<seq<byte>>): (ts: seq<Tensor>)
    requires InputsSized(g, inputs)
    ensures Supplied(g, ts)
  {
    Views(InputFacts(g), inputs)
  }

  /** The bytes of a value are its reference evaluation; they are an external input's own bytes
      when the value aliases that input, and otherwise their padding is zero. */
  ghost predicate Holds(g: Graph, inputs: seq<seq<byte>>, provider: Provider, v: ValueRef, bytes: seq<byte>)
    requires ValidGraph(g) && InputsSized(g, inputs)
  {
    Available(g, v, |g.nodes|)
    && (ValuesAreValid(g, v);
        Sized(FactsOf(g, v), bytes)
        && EvalValue(g, InputTensors(g, inputs), provider, v) == Ok(View(FactsOf(g, v), bytes))
        && match InputAlias(g, v)
           case Some(i) => i < |inputs| && bytes == inputs[i]
           case None => PadsZero(FactsOf(g, v), bytes))
  }

  /** The runtime holds the live values, each with its allocation. */
  ghost predicate Mirrors(runtime: Runtime, s: Schedule) {
    runtime.Keys == s.values.Keys && forall v :: v in runtime ==> runtime[v].allocation == s.values[v]
  }

  ghost predicate AllHold(g: Graph, inputs: seq<seq<byte>>, provider: Provider, runtime: Runtime)
    requires ValidGraph(g) && InputsSized(g, inputs)
  {
    forall v :: v in runtime ==> Holds(g, inputs, provider, v, runtime[v].bytes)
  }

  /** The two descriptions of sharing agree. */
  lemma SharesMatches(g: Graph, k: nat, reused: bool, o: nat)
    requires ValidGraph(g) && k < |g.nodes| && o < |g.nodes[k].outputs| && AllAvailable(g, g.nodes[k].inputs, |g.nodes|)
    requires reused ==> g.nodes[k].operation.Prepare? && |g.nodes[k].inputs| == |g.nodes[k].outputs| == 1
    ensures Shares(g.nodes[k], AllFacts(g, g.nodes[k].inputs), reused) <==> SharesInput(g, k, o, reused)
  {
    hide ValidGraph, NewFacts;
    NodeIsTyped(g, k);
    if |g.nodes[k].inputs| == 1 {
      assert FactsIn(g.inputs, g.nodes, g.nodes[k].inputs[0]) == Some(FactsOf(g, g.nodes[k].inputs[0]));
    }
  }

  /** The reference evaluation of a node on arguments that hold. */
  lemma NodeEvaluates(g: Graph, inputs: seq<seq<byte>>, provider: Provider, k: nat, args: seq<seq<byte>>)
    requires ValidGraph(g) && InputsSized(g, inputs) && k < |g.nodes| && |args| == |g.nodes[k].inputs|
    requires forall i :: 0 <= i < |args| ==> Holds(g, inputs, provider, g.nodes[k].inputs[i], args[i])
    ensures AllAvailable(g, g.nodes[k].inputs, |g.nodes|)
    ensures Runnable(g.nodes[k], AllFacts(g, g.nodes[k].inputs), args)
    ensures EvalNode(g, InputTensors(g, inputs), provider, k)
            == NodeMeaning(g.nodes[k], AllFacts(g, g.nodes[k].inputs), args, provider)
  {
    hide ValidGraph, NewFacts, InferOutputs, Apply, View, InputsSized, InputTensors, EvalValue;
    NodeIsTyped(g, k);
    var node := g.nodes[k];
    var facts := AllFacts(g, node.inputs);
    ArgumentsSized(g, inputs, provider, node.inputs, args);
    var views := Views(facts, args);
    forall i | 0 <= i < |args| ensures EvalValue(g, InputTensors(g, inputs), provider, node.inputs[i]) == Ok(views[i]) {
      assert Holds(g, inputs, provider, node.inputs[i], args[i]);
    }
    EvalAllIs(g, InputTensors(g, inputs), provider, node.inputs, k, views);
  }

  lemma ArgumentsSized(g: Graph, inputs: seq<seq<byte>>, provider: Provider, refs: seq<ValueRef>, args: seq<seq<byte>>)
    requires ValidGraph(g) && InputsSized(g, inputs) && |args| == |refs| && AllAvailable(g, refs, |g.nodes|)
    requires forall i :: 0 <= i < |args| ==> Holds(g, inputs, provider, refs[i], args[i])
    ensures AllSized(AllFacts(g, refs), args)
  {
    hide ValidGraph, NewFacts, InputsSized, EvalValue, View;
    forall i | 0 <= i < |args| ensures ValidFacts(AllFacts(g, refs)[i]) && Sized(AllFacts(g, refs)[i], args[i]) {
      ValuesAreValid(g, refs[i]);
      assert Holds(g, inputs, provider, refs[i], args[i]);
    }
  }

  /** A correct output of a node holds. */
  lemma OutputHolds(g: Graph, inputs: seq<seq<byte>>, provider: Provider, k: nat, args: seq<seq<byte>>,
                    outputs: seq<Produced>, reused: bool, o: nat)
    requires ValidGraph(g) && InputsSized(g, inputs) && k < |g.nodes| && |args| == |g.nodes[k].inputs|
    requires forall i :: 0 <= i < |args| ==> Holds(g, inputs, provider, g.nodes[k].inputs[i], args[i])
    requires AllAvailable(g, g.nodes[k].inputs, |g.nodes|) && Runnable(g.nodes[k], AllFacts(g, g.nodes[k].inputs), args)
    requires Correct(g.nodes[k], AllFacts(g, g.nodes[k].inputs), args, provider, outputs) && OutputsSized(g.nodes[k], outputs)
    requires reused ==> g.nodes[k].operation.Prepare? && |args| == |outputs| == 1
    requires o < |outputs| && (outputs[o].origin.Alias? <==> Shares(g.nodes[k], AllFacts(g, g.nodes[k].inputs), reused))
    ensures Holds(g, inputs, provider, NodeOutput(k, o), outputs[o].bytes)
  {
    hide ValidGraph, NewFacts, InferOutputs, Apply, View, InputsSized, InputTensors, AliasesInput, Shares, PadsZero, NodeMeaning;
    var node, v := g.nodes[k], NodeOutput(k, o);
    NodeEvaluates(g, inputs, provider, k, args);
    ValuesAreValid(g, v);
    assert BytesOf(outputs)[o] == outputs[o].bytes;
    assert Views(node.outputs, BytesOf(outputs))[o] == View(node.outputs[o], outputs[o].bytes);
    assert EvalValue(g, InputTensors(g, inputs), provider, v) == Ok(View(node.outputs[o], outputs[o].bytes));
    SharesMatches(g, k, reused, o);
    assert Origins(node, args, outputs);
    if AliasesInput(g, k, o) {
      OnlyFirstAliases(g, k, o);
      assert outputs[o].bytes == args[0];
      assert Holds(g, inputs, provider, node.inputs[0], args[0]);
      AliasMeaning(g, k, args[0], provider);
    } else if outputs[o].origin.Alias? {
      PreparedIsCanonical(g, k, reused, outputs[o].bytes);
    }
  }

  lemma OnlyFirstAliases(g: Graph, k: nat, o: nat)
    requires k < |g.nodes| && AliasesInput(g, k, o)
    ensures o == 0 && |g.nodes[k].inputs| == 1 && |g.nodes[k].outputs| == 1
  {
  }

  /** A reused preparation has canonical output, hence no padding. */
  lemma PreparedIsCanonical(g: Graph, k: nat, reused: bool, bytes: seq<byte>)
    requires ValidGraph(g) && k < |g.nodes| && SharesInput(g, k, 0, reused) && !AliasesInput(g, k, 0)
    requires |g.nodes[k].outputs| == 1 && ValidFacts(g.nodes[k].outputs[0]) && Sized(g.nodes[k].outputs[0], bytes)
    ensures PadsZero(g.nodes[k].outputs[0], bytes)
  {
    hide ValidGraph, NewFacts, InferPrepare, PadsZero;
    NodeIsTyped(g, k);
    PrepareOutput(g.nodes[k].operation.transform, AllFacts(g, g.nodes[k].inputs)[0]);
    CanonicalView(g.nodes[k].outputs[0], bytes);
  }

  // ---------- Bookkeeping of one node ----------

  /** Looks up the arguments of a node. */
  method CollectArguments(runtime: Runtime, refs: seq<ValueRef>) returns (r: Result<seq<RuntimeValue>>)
    ensures r.Ok? <==> forall i :: 0 <= i < |refs| ==> refs[i] in runtime
    ensures r.Ok? ==> |r.value| == |refs| && forall i :: 0 <= i < |refs| ==> r.value[i] == runtime[refs[i]]
    ensures r.Err? ==> r.error == Integrity
  {
    var args: seq<RuntimeValue> := [];
    var i := 0;
    while i < |refs|
      invariant 0 <= i <= |refs| && |args| == i
      invariant forall j :: 0 <= j < i ==> refs[j] in runtime && args[j] == runtime[refs[j]]
    {
      if refs[i] !in runtime {
        return Err(Integrity);
      }
      args := args + [runtime[refs[i]]];
      i := i + 1;
    }
    return Ok(args);
  }

  function ArgumentBytes(args: seq<RuntimeValue>): (r: seq<seq<byte>>)
    ensures |r| == |args|
  {
    seq(|args|, i requires 0 <= i < |args| => args[i].bytes)
  }

  /** The part of the runtime that is still live. */
  function Kept(runtime: Runtime, keys: set<ValueRef>): Runtime {
    map v | v in runtime && v in keys :: runtime[v]
  }

  /** One consumed input leaves the runtime with its last use. */
  lemma ConsumeKeeps(s: Schedule, v: ValueRef, runtime: Runtime)
    requires ConsumeValue(s, v).Ok? && Mirrors(runtime, s)
    ensures var t := ConsumeValue(s, v).value;
            (t.1 ==> v in runtime && t.0.values == s.values - {v}) && (!t.1 ==> t.0.values == s.values)
            && Mirrors(if t.1 then runtime - {v} else runtime, t.0)
            && (if t.1 then runtime - {v} else runtime) == Kept(runtime, t.0.values.Keys)
  {
  }

  lemma RemoveKeeps(s: Schedule, v: ValueRef, runtime: Runtime)
    requires RemoveValue(s, v).Ok? && Mirrors(runtime, s)
    ensures var t := RemoveValue(s, v).value;
            v in runtime && t.values == s.values - {v} && Mirrors(runtime - {v}, t)
            && runtime - {v} == Kept(runtime, t.values.Keys)
  {
  }

  lemma KeptTwice(runtime: Runtime, first: Runtime, second: Runtime, keys: set<ValueRef>, fewer: set<ValueRef>)
    requires first == Kept(runtime, keys) && second == Kept(first, fewer) && fewer <= keys
    ensures second == Kept(runtime, fewer)
  {
  }

  method ConsumeRuntimeInputs(refs: seq<ValueRef>, schedule: LivenessSchedule, runtime: Runtime) returns (r: Result<Runtime>)
    requires Mirrors(runtime, schedule.State())
    modifies schedule
    ensures var spec := ConsumeInputs(old(schedule.State()), refs);
            (spec.Ok? ==> schedule.State() == spec.value && r == Ok(Kept(runtime, spec.value.values.Keys))
                          && Mirrors(r.value, spec.value))
            && (spec.Err? ==> r == Err(spec.error))
  {
    hide ConsumeValue;
    ghost var start := schedule.State();
    var left := runtime;
    var i := 0;
    assert Kept(runtime, runtime.Keys) == runtime;
    while i < |refs|
      invariant 0 <= i <= |refs| && Mirrors(left, schedule.State())
      invariant left == Kept(runtime, schedule.State().values.Keys) && schedule.State().values.Keys <= runtime.Keys
      invariant ConsumeInputs(start, refs) == ConsumeInputs(schedule.State(), refs[i..])
    {
      assert refs[i..][1..] == refs[i + 1..];
      ghost var before, kept := schedule.State(), left;
      var last :- schedule.Consume(refs[i]);
      ConsumeKeeps(before, refs[i], kept);
      if last {
        if refs[i] !in left {
          return Err(Integrity);
        }
        left := left - {refs[i]};
      }
      KeptTwice(runtime, kept, left, before.values.Keys, schedule.State().values.Keys);
      i := i + 1;
    }
    return Ok(left);
  }

  method RemoveUnusedRuntime(refs: seq<ValueRef>, schedule: LivenessSchedule, runtime: Runtime) returns (r: Result<Runtime>)
    requires Mirrors(runtime, schedule.State())
    modifies schedule
    ensures var spec := RemoveUnused(old(schedule.State()), refs);
            (spec.Ok? ==> schedule.State() == spec.value && r == Ok(Kept(runtime, spec.value.values.Keys))
                          && Mirrors(r.value, spec.value))
            && (spec.Err? ==> r == Err(spec.error))
  {
    hide RemoveValue;
    ghost var start := schedule.State();
    var left := runtime;
    var i := 0;
    assert Kept(runtime, runtime.Keys) == runtime;
    while i < |refs|
      invariant 0 <= i <= |refs| && Mirrors(left, schedule.State())
      invariant left == Kept(runtime, schedule.State().values.Keys) && schedule.State().values.Keys <= runtime.Keys
      invariant RemoveUnused(start, refs) == RemoveUnused(schedule.State(), refs[i..])
    {
      assert refs[i..][1..] == refs[i + 1..];
      if refs[i] !in schedule.remainingUses || schedule.remainingUses[refs[i]] == 0 {
        ghost var before, kept := schedule.State(), left;
        var _ :- schedule.Remove(refs[i]);
        RemoveKeeps(before, refs[i], kept);
        if refs[i] !in left {
          return Err(Integrity);
        }
        left := left - {refs[i]};
        KeptTwice(runtime, kept, left, before.values.Keys, schedule.State().values.Keys);
      }
      i := i + 1;
    }
    return Ok(left);
  }

  /** The runtime after the first `o` outputs of a node were published. */
  ghost predicate Published(runtime: Runtime, before: Runtime, k: nat, outputs: seq<Produced>, o: nat)
    requires o <= |outputs|
  {
    (forall v :: v in runtime <==> v in before || (v.NodeOutput? && v.node == k && v.output < o))
    && (forall v :: v in before ==> runtime[v] == before[v])
    && (forall j :: 0 <= j < o ==> NodeOutput(k, j) in runtime && runtime[NodeOutput(k, j)].bytes == outputs[j].bytes)
  }

  /** Publishes the outputs of a node under their allocations. */
  method PublishOutputs(g: Graph, k: nat, schedule: LivenessSchedule, runtime: Runtime, args: seq<RuntimeValue>,
                        outputs: seq<Produced>, ghost reused: bool)
    returns (r: Result<Runtime>)
    requires k < |g.nodes| && |outputs| == |g.nodes[k].outputs| && Mirrors(runtime, schedule.State())
    requires |args| == |g.nodes[k].inputs|
    requires forall i :: 0 <= i < |args| ==> g.nodes[k].inputs[i] in runtime && args[i] == runtime[g.nodes[k].inputs[i]]
    requires NotProduced(schedule.State(), k, 0)
    requires forall o :: 0 <= o < |outputs| ==>
               (outputs[o].origin.Alias? <==> SharesInput(g, k, o, reused))
               && (outputs[o].origin.Alias? ==> outputs[o].origin.input == 0 && |args| == 1)
    modifies schedule
    ensures var spec := Produce(old(schedule.State()), g, k, reused, 0);
            (spec.Ok? ==> r.Ok? && schedule.State() == spec.value && Mirrors(r.value, spec.value)
                          && Published(r.value, runtime, k, outputs, |outputs|))
            && (spec.Err? ==> r == Err(spec.error))
  {
    hide CreateAllocation, InsertValue, SharesInput, Produce, Published, Mirrors, NotProduced;
    ghost var start := schedule.State();
    PublishedNothing(runtime, k, outputs);
    var grown := runtime;
    var o := 0;
    while o < |outputs|
      invariant 0 <= o <= |outputs| && Mirrors(grown, schedule.State()) && Published(grown, runtime, k, outputs, o)
      invariant NotProduced(schedule.State(), k, o)
      invariant Produce(start, g, k, reused, 0) == Produce(schedule.State(), g, k, reused, o)
    {
      var v := NodeOutput(k, o);
      var allocation: Option<nat>;
      ghost var before := schedule.State();
      ProduceUnrolls(before, g, k, reused, o);
      match outputs[o].origin {
        case Alias(j) =>
          if j >= |args| {
            return Err(Integrity);
          }
          allocation := args[j].allocation;
          StillMirrored(grown, before, runtime, k, outputs, o, g.nodes[k].inputs[0]);
        case Fresh =>
          var created :- schedule.Create(g.nodes[k].outputs[o].byteLen);
          allocation := Some(created);
          CreatedValues(before, g.nodes[k].outputs[o].byteLen);
      }
      ghost var mid := schedule.State();
      var _ :- schedule.Insert(v, allocation);
      PublishOne(grown, mid, schedule.State(), runtime, k, outputs, o, allocation);
      grown := grown[v := RuntimeValue(outputs[o].bytes, allocation)];
      o := o + 1;
    }
    ProduceEnds(schedule.State(), g, k, reused);
    return Ok(grown);
  }

  lemma PublishedNothing(runtime: Runtime, k: nat, outputs: seq<Produced>)
    ensures Published(runtime, runtime, k, outputs, 0)
  {
  }

  lemma ProduceUnrolls(s: Schedule, g: Graph, k: nat, reused: bool, o: nat)
    requires k < |g.nodes| && o < |g.nodes[k].outputs|
    ensures Produce(s, g, k, reused, o)
            == if SharesInput(g, k, o, reused) then
                 if g.nodes[k].inputs[0] !in s.values then Err(Integrity)
                 else
                   var t :- InsertValue(s, NodeOutput(k, o), s.values[g.nodes[k].inputs[0]]);
                   Produce(t, g, k, reused, o + 1)
               else
                 var created :- CreateAllocation(s, g.nodes[k].outputs[o].byteLen);
                 var t :- InsertValue(created.0, NodeOutput(k, o), Some(created.1));
                 Produce(t, g, k, reused, o + 1)
  {
    hide CreateAllocation, InsertValue;
  }

  lemma ProduceEnds(s: Schedule, g: Graph, k: nat, reused: bool)
    requires k < |g.nodes|
    ensures Produce(s, g, k, reused, |g.nodes[k].outputs|) == Ok(s)
  {
  }

  lemma StillMirrored(grown: Runtime, s: Schedule, runtime: Runtime, k: nat, outputs: seq<Produced>, o: nat, u: ValueRef)
    requires o <= |outputs| && Mirrors(grown, s) && Published(grown, runtime, k, outputs, o) && u in runtime
    ensures u in s.values && s.values[u] == runtime[u].allocation
  {
  }

  lemma PublishOne(grown: Runtime, s: Schedule, t: Schedule, runtime: Runtime, k: nat, outputs: seq<Produced>, o: nat,
                   allocation: Option<nat>)
    requires o < |outputs| && Published(grown, runtime, k, outputs, o) && NotProduced(s, k, o)
    requires Mirrors(grown, s)
    requires InsertValue(s, NodeOutput(k, o), allocation) == Ok(t)
    ensures var more := grown[NodeOutput(k, o) := RuntimeValue(outputs[o].bytes, allocation)];
            Mirrors(more, t) && Published(more, runtime, k, outputs, o + 1) && NotProduced(t, k, o + 1)
  {
    InsertedValues(s, NodeOutput(k, o), allocation);
  }

  lemma CreatedValues(s: Schedule, bytes: nat)
    requires CreateAllocation(s, bytes).Ok?
    ensures CreateAllocation(s, bytes).value.0.values == s.values
    ensures forall runtime: Runtime :: Mirrors(runtime, s) ==> Mirrors(runtime, CreateAllocation(s, bytes).value.0)
    ensures forall k: nat, o: nat :: NotProduced(s, k, o) ==> NotProduced(CreateAllocation(s, bytes).value.0, k, o)
  {
  }

  lemma InsertedValues(s: Schedule, v: ValueRef, allocation: Option<nat>)
    requires InsertValue(s, v, allocation).Ok?
    ensures InsertValue(s, v, allocation).value.values == s.values[v := allocation]
  {
  }
}

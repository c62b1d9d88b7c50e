/** The reference meaning of a graph, by plain recursion on logical tensors, and the static
    alias queries. */
module Evaluation {
  import opened Checked
  import opened Shapes
  import opened Strides
  import opened Buffers
  import opened Facts
  import opened Operations
  import opened Graphs

  /** The value exists before node `k`. */
  predicate Available(g: Graph, v: ValueRef, k: nat) {
    match v
    case Input(i) => i < |g.inputs|
    case NodeOutput(n, o) => n < k <= |g.nodes| && o < |g.nodes[n].outputs|
  }

  predicate AllAvailable(g: Graph, refs: seq<ValueRef>, k: nat) {
    forall i :: 0 <= i < |refs| ==> Available(g, refs[i], k)
  }

  function FactsOf(g: Graph, v: ValueRef): TensorFacts
    requires Available(g, v, |g.nodes|)
  {
    match v
    case Input(i) => g.inputs[i].facts
    case NodeOutput(n, o) => g.nodes[n].outputs[o]
  }

  function AllFacts(g: Graph, refs: seq<ValueRef>): (r: seq<TensorFacts>)
    requires AllAvailable(g, refs, |g.nodes|)
    ensures |r| == |refs| && forall i :: 0 <= i < |refs| ==> r[i] == FactsOf(g, refs[i])
  {
    seq(|refs|, i requires 0 <= i < |refs| => FactsOf(g, refs[i]))
  }

  /** Every value of a valid graph has valid facts. */
  lemma ValuesAreValid(g: Graph, v: ValueRef)
    requires ValidGraph(g) && Available(g, v, |g.nodes|)
    ensures ValidFacts(FactsOf(g, v))
  {
    hide NewFacts, InferOutputs;
    if v.NodeOutput? {
      assert ValidNode(g.inputs, g.nodes[..v.node], g.nodes[v.node]);
      InferredFactsAreValid(g.nodes[v.node].operation, ResolveFacts(g.inputs, g.nodes[..v.node], g.nodes[v.node].inputs).value);
    }
  }

  lemma OutputIsAvailable(g: Graph)
    requires ValidGraph(g)
    ensures Available(g, g.output, |g.nodes|)
  {
  }

  /** The inputs of a node exist before it, and its outputs are inferred from their facts. */
  lemma NodeIsTyped(g: Graph, k: nat)
    requires ValidGraph(g) && k < |g.nodes|
    ensures AllAvailable(g, g.nodes[k].inputs, k) && AllAvailable(g, g.nodes[k].inputs, |g.nodes|)
    ensures InferOutputs(g.nodes[k].operation, AllFacts(g, g.nodes[k].inputs)) == Ok(g.nodes[k].outputs)
    ensures |g.nodes[k].outputs| <= U32_MAX
  {
    hide NewFacts, InferOutputs, ValidInputs;
    var node := g.nodes[k];
    assert ValidNode(g.inputs, g.nodes[..k], node);
    ResolvedFacts(g.inputs, g.nodes[..k], node.inputs);
    forall i | 0 <= i < |node.inputs| ensures Available(g, node.inputs[i], k) && Available(g, node.inputs[i], |g.nodes|) {
      assert FactsIn(g.inputs, g.nodes[..k], node.inputs[i]).Some?;
    }
    assert AllFacts(g, node.inputs) == ResolveFacts(g.inputs, g.nodes[..k], node.inputs).value;
  }

  // ---------- Reference evaluation ----------

  /** One logical tensor for every external input. */
  ghost predicate Supplied(g: Graph, ts: seq<Tensor>) {
    |ts| == |g.inputs|
    && forall i :: 0 <= i < |ts| ==> ts[i].Valid() && ts[i].shape == g.inputs[i].facts.logicalShape
  }

  function Rank(v: ValueRef): nat {
    if v.Input? then 0 else v.node + 1
  }

  ghost function EvalValue(g: Graph, ts: seq<Tensor>, provider: Provider, v: ValueRef): (r: Result<Tensor>)
    requires ValidGraph(g) && Supplied(g, ts) && Available(g, v, |g.nodes|)
    ensures r.Ok? ==> r.value.Valid() && r.value.shape == FactsOf(g, v).logicalShape
    decreases Rank(v), 3, 0
  {
    match v
    case Input(i) => Ok(ts[i])
    case NodeOutput(n, o) =>
      var outs :- EvalNode(g, ts, provider, n);
      Ok(outs[o])
  }

  ghost function EvalNode(g: Graph, ts: seq<Tensor>, provider: Provider, n: nat): (r: Result<seq<Tensor>>)
    requires ValidGraph(g) && Supplied(g, ts) && n < |g.nodes|
    ensures r.Ok? ==> Described(r.value, g.nodes[n].outputs)
    decreases n + 1, 2, 0
  {
    NodeIsTyped(g, n);
    var node := g.nodes[n];
    var args :- EvalAll(g, ts, provider, node.inputs, n);
    Apply(node.operation, AllFacts(g, node.inputs), args, provider)
  }

  ghost function EvalAll(g: Graph, ts: seq<Tensor>, provider: Provider, refs: seq<ValueRef>, n: nat): (r: Result<seq<Tensor>>)
    requires ValidGraph(g) && Supplied(g, ts) && n < |g.nodes|
    requires AllAvailable(g, refs, n) && AllAvailable(g, refs, |g.nodes|)
    ensures r.Ok? ==> Described(r.value, AllFacts(g, refs))
    decreases n + 1, 1, |refs|
  {
    if refs == [] then Ok([])
    else
      var first :- EvalValue(g, ts, provider, refs[0]);
      var rest :- EvalAll(g, ts, provider, refs[1..], n);
      ValuesAreValid(g, refs[0]);
      Ok([first] + rest)
  }

  lemma {:induction false} EvalAllIs(g: Graph, ts: seq<Tensor>, provider: Provider, refs: seq<ValueRef>, n: nat, args: seq<Tensor>)
    requires ValidGraph(g) && Supplied(g, ts) && n < |g.nodes|
    requires AllAvailable(g, refs, n) && AllAvailable(g, refs, |g.nodes|) && |args| == |refs|
    requires forall i :: 0 <= i < |refs| ==> EvalValue(g, ts, provider, refs[i]) == Ok(args[i])
    ensures EvalAll(g, ts, provider, refs, n) == Ok(args)
  {
    hide EvalValue, EvalNode, ValidGraph;
    if refs != [] {
      EvalAllIs(g, ts, provider, refs[1..], n, args[1..]);
      assert args == [args[0]] + args[1..];
    }
  }

  // ---------- Static aliases ----------

  /** Output `o` of node `n` is a metadata-only view of the node's single input. */
  predicate AliasesInput(g: Graph, n: nat, o: nat)
    requires n < |g.nodes|
  {
    var node := g.nodes[n];
    o == 0 && |node.inputs| == 1 && |node.outputs| == 1
    && match node.operation
       case Reshape(_) => true
       case Permute(order, _) =>
         IsIdentityOrder(order) && FactsIn(g.inputs, g.nodes, node.inputs[0]) == Some(node.outputs[0])
       case _ => false
  }

  /** The external input whose bytes the value shares, following metadata-only nodes. */
  function InputAlias(g: Graph, v: ValueRef): Option<nat>
    requires ValidGraph(g) && Available(g, v, |g.nodes|)
    decreases Rank(v)
  {
    match v
    case Input(i) => Some(i)
    case NodeOutput(n, o) =>
      NodeIsTyped(g, n);
      if AliasesInput(g, n, o) then InputAlias(g, g.nodes[n].inputs[0]) else None
  }

  /** The query follows the chain with one mutable reference. */
  method OutputInputAlias(g: Graph) returns (r: Option<nat>)
    requires ValidGraph(g)
    ensures Available(g, g.output, |g.nodes|) && r == InputAlias(g, g.output)
  {
    hide ValidGraph;
    OutputIsAvailable(g);
    var value := g.output;
    while true
      invariant Available(g, value, |g.nodes|) && InputAlias(g, value) == InputAlias(g, g.output)
      decreases Rank(value)
    {
      match value
      case Input(i) =>
        return if i < |g.inputs| then Some(i) else None;
      case NodeOutput(n, o) =>
        NodeIsTyped(g, n);
        if !AliasesInput(g, n, o) {
          return None;
        }
        value := g.nodes[n].inputs[0];
    }
  }

  /** `v` is the output of a reshape of `next`, or of a permutation by the identity order that keeps
      its facts. */
  predicate ViewOf(g: Graph, v: ValueRef, next: ValueRef) {
    && v.NodeOutput? && v.node < |g.nodes| && v.output == 0 && g.nodes[v.node].inputs == [next]
    && match g.nodes[v.node].operation
       case Reshape(_) => true
       case Permute(order, _) =>
         (forall k :: 0 <= k < |order| ==> order[k] == k)
         && FactsIn(g.inputs, g.nodes, v) == FactsIn(g.inputs, g.nodes, next)
       case _ => false
  }

  /** From `v` through metadata-only nodes to an external input. */
  predicate AliasChain(g: Graph, v: ValueRef, chain: seq<ValueRef>, i: nat) {
    && chain != [] && chain[0] == v && chain[|chain| - 1] == Input(i)
    && forall k :: 0 <= k < |chain| - 1 ==> ViewOf(g, chain[k], chain[k + 1])
  }

  lemma AliasStep(g: Graph, n: nat, o: nat)
    requires ValidGraph(g) && Available(g, NodeOutput(n, o), |g.nodes|)
    ensures AliasesInput(g, n, o) <==> |g.nodes[n].inputs| == 1 && ViewOf(g, NodeOutput(n, o), g.nodes[n].inputs[0])
  {
    hide NewFacts, ValidGraph, InferReshape, InferPermute;
    NodeIsTyped(g, n);
    var node := g.nodes[n];
    if |node.inputs| == 1 {
      assert node.inputs == [node.inputs[0]];
      var input := AllFacts(g, node.inputs)[0];
      if node.operation.Reshape? {
        ReshapeOutput(node.operation.shape, input);
      }
      if node.operation.Permute? {
        PermuteOutput(node.operation.order, node.operation.mode, input);
      }
    }
  }

  /** Following metadata-only nodes from a value to an external input finds that input. */
  lemma {:induction false} ChainIsAlias(g: Graph, v: ValueRef, chain: seq<ValueRef>, i: nat)
    requires ValidGraph(g) && Available(g, v, |g.nodes|) && AliasChain(g, v, chain, i)
    ensures InputAlias(g, v) == Some(i)
    decreases |chain|
  {
    hide ValidGraph, ViewOf, AliasesInput;
    if |chain| > 1 {
      assert ViewOf(g, chain[0], chain[1]);
      ViewParts(g, v, chain[1]);
      AliasStep(g, v.node, v.output);
      NodeIsTyped(g, v.node);
      forall k | 0 <= k < |chain[1..]| - 1
        ensures ViewOf(g, chain[1..][k], chain[1..][k + 1])
      {
        assert ViewOf(g, chain[k + 1], chain[k + 1 + 1]);
      }
      ChainIsAlias(g, chain[1], chain[1..], i);
    }
  }

  lemma ViewParts(g: Graph, v: ValueRef, next: ValueRef)
    requires ViewOf(g, v, next)
    ensures v.NodeOutput? && v.node < |g.nodes| && g.nodes[v.node].inputs == [next]
  {
  }

  /** The input that the query finds is reached through metadata-only nodes. */
  lemma {:induction false} AliasHasChain(g: Graph, v: ValueRef) returns (chain: seq<ValueRef>)
    requires ValidGraph(g) && Available(g, v, |g.nodes|) && InputAlias(g, v).Some?
    ensures AliasChain(g, v, chain, InputAlias(g, v).value)
    decreases Rank(v)
  {
    hide ValidGraph, ViewOf, AliasesInput;
    match v
    case Input(_) => chain := [v];
    case NodeOutput(n, o) =>
      NodeIsTyped(g, n);
      AliasStep(g, n, o);
      var next := g.nodes[n].inputs[0];
      var rest := AliasHasChain(g, next);
      chain := [v] + rest;
      forall k | 0 <= k < |chain| - 1
        ensures ViewOf(g, chain[k], chain[k + 1])
      {
        assert k > 0 ==> ViewOf(g, rest[k - 1], rest[k - 1 + 1]);
      }
  }

  /** Canonical facts of equal element counts and dtypes view the same bytes. */
  lemma ReshapeKeepsElements(shape: Shape, input: TensorFacts, bytes: seq<byte>)
    requires ValidFacts(input) && InferReshape(shape, input).Ok? && Sized(input, bytes)
    ensures |InferReshape(shape, input).value| == 1
    ensures var out := InferReshape(shape, input).value[0];
            ValidFacts(out) && Sized(out, bytes) && out.byteLen == input.byteLen
            && View(out, bytes) == Tensor(shape, View(input, bytes).elems)
  {
    hide NewFacts, InferReshape, View;
    ReshapeOutput(shape, input);
    var out := InferReshape(shape, input).value[0];
    ValidFactsGuarantee(input);
    ValidFactsGuarantee(out);
    CanonicalView(input, bytes);
    CanonicalView(out, bytes);
  }

  /** Permuting by the identity order changes nothing. */
  lemma IdentityPermutes(t: Tensor, order: seq<nat>)
    requires t.Valid() && IsPermutation(order) && |order| == |t.shape| && IsIdentityOrder(order)
    ensures PermuteTensor(t, order) == t
  {
    var p := PermuteTensor(t, order);
    assert Pick(t.shape, order) == t.shape;
    forall l | 0 <= l < Elements(t.shape) ensures p.elems[l] == t.elems[l] {
      var c := Coords(t.shape, l);
      var d := Spread(c, order, |t.shape|);
      forall i | 0 <= i < |c| ensures d[i] == c[i] {
        IndexOfIs(order, i);
      }
      assert d == c;
      PermuteAt(t, order, c);
      LinearOfCoords(t.shape, l);
    }
  }

  /** The meaning of a metadata-only node, on the bytes of its input. */
  lemma AliasMeaning(g: Graph, n: nat, bytes: seq<byte>, provider: Provider)
    requires ValidGraph(g) && n < |g.nodes| && AliasesInput(g, n, 0)
    requires AllAvailable(g, g.nodes[n].inputs, |g.nodes|) && Sized(FactsOf(g, g.nodes[n].inputs[0]), bytes)
    ensures var input, out := FactsOf(g, g.nodes[n].inputs[0]), g.nodes[n].outputs[0];
            ValidFacts(input) && ValidFacts(out) && input.byteLen == out.byteLen && Sized(out, bytes)
            && InferOutputs(g.nodes[n].operation, [input]) == Ok([out])
            && Described([View(input, bytes)], [input])
            && Apply(g.nodes[n].operation, [input], [View(input, bytes)], provider) == Ok([View(out, bytes)])
            && (PadsZero(input, bytes) ==> PadsZero(out, bytes))
  {
    hide NewFacts, InferReshape, InferPermute, View, PermuteTensor, PadsZero, ValidGraph;
    NodeIsTyped(g, n);
    var node, v := g.nodes[n], g.nodes[n].inputs[0];
    var input := FactsOf(g, v);
    ValuesAreValid(g, v);
    assert AllFacts(g, node.inputs) == [input] && node.inputs == [v];
    assert node.outputs == [node.outputs[0]];
    match node.operation
    case Reshape(shape) =>
      ReshapeKeepsElements(shape, input, bytes);
      ReshapeOutput(shape, input);
      CanonicalView(node.outputs[0], bytes);
    case Permute(order, mode) =>
      PermuteOutput(order, mode, input);
      IdentityPermutes(View(input, bytes), order);
      ValuesAreValid(g, NodeOutput(n, 0));
  }
}

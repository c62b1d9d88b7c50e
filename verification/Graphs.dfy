/** Operation graphs: the incremental builder, validity, the static alias query, and the
    reference evaluation on logical tensors. */
module Graphs {
  import opened Checked
  import opened Facts
  import opened Operations

  /** An external tensor, or one output of an earlier node. */
  datatype ValueRef = Input(input: nat) | NodeOutput(node: nat, output: nat)

  datatype GraphInput = GraphInput(name: string, facts: TensorFacts)

  datatype Node = Node(implementation: ImplementationId, inputs: seq<ValueRef>, operation: Operation,
                       outputs: seq<TensorFacts>)

  datatype Graph = Graph(inputs: seq<GraphInput>, nodes: seq<Node>, output: ValueRef)

  /** The facts of a value, when it exists. */
  function FactsIn(inputs: seq<GraphInput>, nodes: seq<Node>, v: ValueRef): Option<TensorFacts> {
    match v
    case Input(i) => if i < |inputs| then Some(inputs[i].facts) else None
    case NodeOutput(n, o) => if n < |nodes| && o < |nodes[n].outputs| then Some(nodes[n].outputs[o]) else None
  }

  /** The facts of a list of values, or a binding error at the first missing one. */
  function ResolveFacts(inputs: seq<GraphInput>, nodes: seq<Node>, refs: seq<ValueRef>): Result<seq<TensorFacts>> {
    if refs == [] then Ok([])
    else
      match FactsIn(inputs, nodes, refs[0])
      case None => Err(Binding)
      case Some(f) =>
        var rest :- ResolveFacts(inputs, nodes, refs[1..]);
        Ok([f] + rest)
  }

  lemma {:induction false} ResolvedFacts(inputs: seq<GraphInput>, nodes: seq<Node>, refs: seq<ValueRef>)
    ensures var r := ResolveFacts(inputs, nodes, refs);
            (r.Ok? <==> forall i :: 0 <= i < |refs| ==> FactsIn(inputs, nodes, refs[i]).Some?)
            && (r.Ok? ==> |r.value| == |refs|
                          && forall i :: 0 <= i < |refs| ==> FactsIn(inputs, nodes, refs[i]) == Some(r.value[i]))
            && (r.Err? ==> r == Err(Binding))
  {
    if refs != [] {
      ResolvedFacts(inputs, nodes, refs[1..]);
    }
  }

  predicate DistinctNames(inputs: seq<GraphInput>) {
    forall i, j :: 0 <= i < j < |inputs| ==> inputs[i].name != inputs[j].name
  }

  predicate ValidInputs(inputs: seq<GraphInput>) {
    |inputs| <= U32_MAX + 1 && DistinctNames(inputs)
    && forall i :: 0 <= i < |inputs| ==> ValidFacts(inputs[i].facts)
  }

  /** A node whose inputs exist before it and whose outputs are the inferred ones. */
  predicate ValidNode(inputs: seq<GraphInput>, earlier: seq<Node>, node: Node) {
    var facts := ResolveFacts(inputs, earlier, node.inputs);
    facts.Ok? && InferOutputs(node.operation, facts.value) == Ok(node.outputs) && |node.outputs| <= U32_MAX
  }

  predicate ValidNodes(inputs: seq<GraphInput>, nodes: seq<Node>) {
    |nodes| <= U32_MAX + 1 && forall k :: 0 <= k < |nodes| ==> ValidNode(inputs, nodes[..k], nodes[k])
  }

  predicate ValidGraph(g: Graph) {
    ValidInputs(g.inputs) && ValidNodes(g.inputs, g.nodes) && FactsIn(g.inputs, g.nodes, g.output).Some?
  }

  // ---------- The builder ----------

  /** References to the outputs of one node. */
  function OutputsOf(node: nat, count: nat): (r: seq<ValueRef>)
    ensures |r| == count && forall o :: 0 <= o < count ==> r[o] == NodeOutput(node, o)
  {
    seq(count, o requires 0 <= o < count => NodeOutput(node, o))
  }

  /** The result of adding a node to a graph under construction. */
  function Extended(inputs: seq<GraphInput>, nodes: seq<Node>, implementation: ImplementationId, operation: Operation,
                    refs: seq<ValueRef>): Result<Node>
  {
    var facts :- ResolveFacts(inputs, nodes, refs);
    var outputs :- InferOutputs(operation, facts);
    if |nodes| > U32_MAX || |outputs| > U32_MAX then Err(ResourceLimit)
    else Ok(Node(implementation, refs, operation, outputs))
  }

  lemma ExtendedIsValid(inputs: seq<GraphInput>, nodes: seq<Node>, node: Node)
    requires ValidNodes(inputs, nodes)
    ensures Extended(inputs, nodes, node.implementation, node.operation, node.inputs) == Ok(node)
            <==> ValidNodes(inputs, nodes + [node])
  {
    hide InferOutputs, ResolveFacts;
    var next := nodes + [node];
    assert forall k :: 0 <= k < |nodes| ==> next[..k] == nodes[..k] && next[k] == nodes[k];
    assert next[..|nodes|] == nodes && next[|nodes|] == node;
    if ValidNodes(inputs, next) {
      assert ValidNode(inputs, next[..|nodes|], next[|nodes|]);
    }
  }

  class GraphBuilder {
    var inputs: seq<GraphInput>
    var inputNames: set<string>
    var nodes: seq<Node>

    ghost predicate Valid()
      reads this
    {
      ValidInputs(inputs) && ValidNodes(inputs, nodes)
      && forall name :: name in inputNames <==> exists i :: 0 <= i < |inputs| && inputs[i].name == name
    }

    constructor ()
      ensures Valid() && inputs == [] && nodes == []
    {
      inputs, inputNames, nodes := [], {}, [];
    }

    /** Appends an external input; only a repeated name or too many inputs are refused. */
    method AddInput(name: string, facts: TensorFacts) returns (r: Result<ValueRef>)
      requires Valid() && ValidFacts(facts)
      modifies this
      ensures Valid() && nodes == old(nodes)
      ensures r.Ok? <==> |old(inputs)| <= U32_MAX && forall i :: 0 <= i < |old(inputs)| ==> old(inputs)[i].name != name
      ensures r.Ok? ==> r.value == Input(|old(inputs)|) && inputs == old(inputs) + [GraphInput(name, facts)]
      ensures r.Err? ==> inputs == old(inputs)
    {
      hide NewFacts, InferOutputs;
      if name in inputNames {
        return Err(Binding);
      }
      if |inputs| > U32_MAX {
        return Err(ResourceLimit);
      }
      MoreInputsKeepNodes(inputs, GraphInput(name, facts), nodes);
      var ordinal := |inputs|;
      inputNames := inputNames + {name};
      inputs := inputs + [GraphInput(name, facts)];
      assert forall i :: 0 <= i < ordinal ==> inputs[i] == old(inputs)[i];
      assert inputs[ordinal].name == name;
      return Ok(Input(ordinal));
    }

    /** Appends an operation; it succeeds exactly when the extended graph is valid. */
    method AddOperation(implementation: ImplementationId, operation: Operation, refs: seq<ValueRef>)
      returns (r: Result<seq<ValueRef>>)
      requires Valid()
      modifies this
      ensures Valid() && inputs == old(inputs)
      ensures r.Ok? <==> Extended(inputs, old(nodes), implementation, operation, refs).Ok?
      ensures r.Ok? ==> nodes == old(nodes) + [Extended(inputs, old(nodes), implementation, operation, refs).value]
      ensures r.Ok? ==> r.value == OutputsOf(|old(nodes)|, |Extended(inputs, old(nodes), implementation, operation, refs).value.outputs|)
      ensures r.Err? ==> nodes == old(nodes)
    {
      hide InferOutputs, ValidInputs;
      var facts :- ResolveFacts(inputs, nodes, refs);
      var outputs :- InferOutputs(operation, facts);
      if |nodes| > U32_MAX {
        return Err(ResourceLimit);
      }
      if |outputs| > U32_MAX {
        return Err(ResourceLimit);
      }
      var ordinal := |nodes|;
      ExtendedIsValid(inputs, nodes, Node(implementation, refs, operation, outputs));
      nodes := nodes + [Node(implementation, refs, operation, outputs)];
      return Ok(OutputsOf(ordinal, |outputs|));
    }

    method Build(output: ValueRef) returns (r: Result<Graph>)
      requires Valid()
      ensures r.Ok? <==> FactsIn(inputs, nodes, output).Some?
      ensures r.Ok? ==> r.value == Graph(inputs, nodes, output) && ValidGraph(r.value)
    {
      if FactsIn(inputs, nodes, output).None? {
        return Err(Binding);
      }
      return Ok(Graph(inputs, nodes, output));
    }
  }

  lemma {:induction false} MoreInputsResolve(inputs: seq<GraphInput>, extra: GraphInput, nodes: seq<Node>, refs: seq<ValueRef>)
    requires ResolveFacts(inputs, nodes, refs).Ok?
    ensures ResolveFacts(inputs + [extra], nodes, refs) == ResolveFacts(inputs, nodes, refs)
  {
    if refs != [] {
      MoreInputsResolve(inputs, extra, nodes, refs[1..]);
    }
  }

  lemma MoreInputsKeepNodes(inputs: seq<GraphInput>, extra: GraphInput, nodes: seq<Node>)
    requires ValidNodes(inputs, nodes)
    ensures ValidNodes(inputs + [extra], nodes)
  {
    hide InferOutputs;
    forall k | 0 <= k < |nodes| ensures ValidNode(inputs + [extra], nodes[..k], nodes[k]) {
      MoreInputsResolve(inputs, extra, nodes[..k], nodes[k].inputs);
    }
  }

  // ---------- The serialized form ----------

  /** A node as it is serialized: its outputs are inferred again on the way back. */
  datatype NodeWire = NodeWire(implementation: ImplementationId, inputs: seq<ValueRef>, operation: Operation)

  datatype GraphWire = GraphWire(schemaVersion: nat, inputs: seq<GraphInput>, nodes: seq<NodeWire>, output: ValueRef)

  const OPERATION_GRAPH_SCHEMA_VERSION: nat := 1

  function ToWire(g: Graph): GraphWire {
    GraphWire(OPERATION_GRAPH_SCHEMA_VERSION, g.inputs,
              seq(|g.nodes|, k requires 0 <= k < |g.nodes| =>
                NodeWire(g.nodes[k].implementation, g.nodes[k].inputs, g.nodes[k].operation)),
              g.output)
  }

  /** Rebuilds a graph.  It accepts exactly the serialized forms of valid graphs, and gives
      back the graph that was serialized. */
  method FromWire(wire: GraphWire) returns (r: Result<Graph>)
    requires forall i :: 0 <= i < |wire.inputs| ==> ValidFacts(wire.inputs[i].facts)
    ensures r.Ok? ==> ValidGraph(r.value) && ToWire(r.value) == wire
    ensures forall g: Graph :: ValidGraph(g) && ToWire(g) == wire ==> r == Ok(g)
  {
    hide NewFacts, InferOutputs, ResolveFacts, Extended, FactsIn;
    if wire.schemaVersion != OPERATION_GRAPH_SCHEMA_VERSION {
      return Err(Binding);
    }
    var builder := new GraphBuilder();
    var i := 0;
    while i < |wire.inputs|
      invariant 0 <= i <= |wire.inputs| && builder.Valid() && fresh(builder)
      invariant builder.inputs == wire.inputs[..i] && builder.nodes == []
    {
      assert forall g: Graph :: ValidGraph(g) && ToWire(g) == wire ==> g.inputs == wire.inputs;
      var _ :- builder.AddInput(wire.inputs[i].name, wire.inputs[i].facts);
      assert wire.inputs[..i + 1] == wire.inputs[..i] + [wire.inputs[i]];
      i := i + 1;
    }
    assert wire.inputs[..i] == wire.inputs;
    var k := 0;
    while k < |wire.nodes|
      invariant 0 <= k <= |wire.nodes| && builder.Valid() && fresh(builder)
      invariant builder.inputs == wire.inputs && |builder.nodes| == k
      invariant forall j :: 0 <= j < k ==>
                  wire.nodes[j] == NodeWire(builder.nodes[j].implementation, builder.nodes[j].inputs, builder.nodes[j].operation)
      invariant forall g: Graph :: ValidGraph(g) && ToWire(g) == wire ==> g.nodes[..k] == builder.nodes
    {
      var node := wire.nodes[k];
      ghost var before := builder.nodes;
      forall g: Graph | ValidGraph(g) && ToWire(g) == wire
        ensures g.nodes[..k] == before && g.nodes[..k + 1] == before + [g.nodes[k]]
        ensures Extended(wire.inputs, before, node.implementation, node.operation, node.inputs) == Ok(g.nodes[k])
      {
        assert ToWire(g).nodes[k] == node;
        PrefixIsValid(g.inputs, g.nodes, k + 1);
        PrefixIsValid(g.inputs, g.nodes, k);
        assert g.nodes[..k + 1] == g.nodes[..k] + [g.nodes[k]];
        ExtendedIsValid(g.inputs, before, g.nodes[k]);
      }
      var _ :- builder.AddOperation(node.implementation, node.operation, node.inputs);
      ExtendedParts(wire.inputs, before, node.implementation, node.operation, node.inputs);
      k := k + 1;
    }
    forall g: Graph | ValidGraph(g) && ToWire(g) == wire ensures g.nodes == builder.nodes {
      assert g.nodes[..k] == g.nodes;
    }
    r := builder.Build(wire.output);
    assert r.Ok? ==> ToWire(r.value).nodes == wire.nodes;
  }

  lemma ExtendedParts(inputs: seq<GraphInput>, nodes: seq<Node>, implementation: ImplementationId, operation: Operation,
                      refs: seq<ValueRef>)
    ensures var r := Extended(inputs, nodes, implementation, operation, refs);
            r.Ok? ==> r.value.implementation == implementation && r.value.operation == operation && r.value.inputs == refs
  {
  }

  lemma PrefixIsValid(inputs: seq<GraphInput>, nodes: seq<Node>, k: nat)
    requires ValidNodes(inputs, nodes) && k <= |nodes|
    ensures ValidNodes(inputs, nodes[..k])
  {
    forall j | 0 <= j < k ensures ValidNode(inputs, nodes[..k][..j], nodes[..k][j]) {
      assert nodes[..k][..j] == nodes[..j];
    }
  }
}

/** Host materialization of operation graphs: the executor with the materializer's checks, and
    what a delivery, cached or not, therefore holds. */
module GraphMaterialization {
  import opened Checked
  import opened Buffers
  import opened Facts
  import opened Operations
  import opened Graphs
  import opened Evaluation
  import opened GraphSchedule
  import opened Scratch
  import opened Execution
  import opened NodeBytes
  import opened HostExecutor
  import PreparedAddress
  import Materialize

  /** The bytes that an execution of the graph returns, when one can succeed. */
  ghost function GraphBytes(g: Graph, inputs: seq<seq<byte>>, provider: Provider): Option<seq<byte>>
    requires ValidGraph(g)
  {
    if output :| Evaluates(g, inputs, provider, output) then Some(output) else None
  }

  /** The bytes are a function of graph, inputs and provider. */
  lemma GraphBytesAre(g: Graph, inputs: seq<seq<byte>>, provider: Provider, output: seq<byte>)
    requires ValidGraph(g) && Evaluates(g, inputs, provider, output)
    ensures GraphBytes(g, inputs, provider) == Some(output)
  {
    hide ValidGraph, Evaluates;
    var chosen := GraphBytes(g, inputs, provider).value;
    ExecutionIsDeterministic(g, inputs, provider, chosen, output);
  }

  /** The scratch check of a successful run can fail for some choice of source reuse. */
  ghost predicate ScratchCanExceed(g: Graph)
    requires ValidGraph(g) && Available(g, g.output, |g.nodes|)
  {
    Estimate(g).Ok? && Reported(g, ChainReuse(g)).Ok? && Reported(g, ChainReuse(g)).value > Estimate(g).value
  }

  ghost predicate HostFailure(g: Graph, inputs: seq<seq<byte>>, provider: Provider, outputSize: nat, cancelled: nat -> bool, e: Error)
    requires ValidGraph(g) && Available(g, g.output, |g.nodes|)
  {
    || FailureCause(g, inputs, provider, cancelled, e)
    || (e == Integrity && (FactsOf(g, g.output).byteLen != outputSize || ScratchCanExceed(g)))
  }

  /** Executes a graph with the materializer's checks of scratch and length.  They can only fire
      on a target that plans another length, or on a graph whose chain run exceeds its estimate. */
  method ExecuteGraphOnHost(g: Graph, inputs: seq<seq<byte>>, provider: Provider, outputSize: nat, sameView: nat -> bool,
                            avx2: bool, cancelled: nat -> bool)
    returns (r: Result<seq<byte>>)
    requires ValidGraph(g)
    ensures Available(g, g.output, |g.nodes|)
    ensures r.Ok? ==> GraphBytes(g, inputs, provider) == Some(r.value) && |r.value| == outputSize
    ensures r.Ok? ==> exists trace :: Computed(g, inputs, provider, trace) && g.output in trace && trace[g.output] == r.value
    ensures r.Err? ==> HostFailure(g, inputs, provider, outputSize, cancelled, r.error)
  {
    hide ValidGraph, Evaluates, FailureCause, Reported, Reuses, ChainReuse, FactsOf, GraphBytes, Computed;
    OutputIsAvailable(g);
    var execution, reuse, trace := ExecuteHost(g, inputs, provider, sameView, avx2, cancelled);
    if execution.Err? {
      r := Err(execution.error);
      return;
    }
    var output := execution.value.output;
    GraphBytesAre(g, inputs, provider, output);
    var estimate := EstimateHostScratchBytes(g);
    if estimate.Err? {
      EstimateFails(g, inputs, provider, cancelled, estimate.error);
      r := Err(estimate.error);
      return;
    }
    if execution.value.peakScratchBytes > estimate.value {
      ReportedWithinEstimateExactly(g);
      r := Err(Integrity);
      return;
    }
    OutputLength(g, inputs, provider, output);
    if |output| != outputSize {
      r := Err(Integrity);
      return;
    }
    r := Ok(output);
  }

  /** An estimate fails only on a 64-bit limit, which is a listed cause. */
  lemma EstimateFails(g: Graph, inputs: seq<seq<byte>>, provider: Provider, cancelled: nat -> bool, e: Error)
    requires ValidGraph(g) && Estimate(g) == Err(e)
    ensures FailureCause(g, inputs, provider, cancelled, e)
  {
    hide ValidGraph, InputsSized, CanReuse, Run;
    NoReuseIsValid(g);
    RunTracks(g, NoReuse(g), |g.nodes|);
    if Run(g, NoReuse(g), |g.nodes|).Ok? {
      FinalOutput(g, NoReuse(g));
    }
  }

  lemma OutputLength(g: Graph, inputs: seq<seq<byte>>, provider: Provider, output: seq<byte>)
    requires ValidGraph(g) && Evaluates(g, inputs, provider, output)
    ensures Available(g, g.output, |g.nodes|) && |output| == FactsOf(g, g.output).byteLen
  {
    hide ValidGraph, Evaluates, NewFacts, View;
    ReturnedBytes(g, inputs, provider, output);
  }

  // ---------- Deliveries ----------

  /** One view for every source: the bytes of its storage span. */
  function InputViews(bytes: seq<seq<seq<byte>>>): (views: seq<seq<byte>>)
    ensures |views| == |bytes|
  {
    seq(|bytes|, i requires 0 <= i < |bytes| => if bytes[i] == [] then [] else bytes[i][0])
  }

  /** The host of the environment is the graph executor for a target. */
  ghost predicate RunsGraph(env: PreparedAddress.Environment, t: PreparedAddress.Target, g: Graph, provider: Provider)
    requires ValidGraph(g)
  {
    forall backend, bytes: seq<seq<seq<byte>>> ::
      env.host(t, backend, bytes).Ok? ==>
        GraphBytes(g, InputViews(bytes), provider) == Some(env.host(t, backend, bytes).value)
  }

  /** Whatever was cached before, a prepared delivery of a graph target reads as the naive
      evaluation of its graph on the source bytes. */
  lemma GraphDeliveryIsEvaluation(env: PreparedAddress.Environment, entries: Materialize.Entries, w: PreparedAddress.World,
                                  b: PreparedAddress.Binding, validation: Materialize.Validation, g: Graph, provider: Provider)
    requires PreparedAddress.CollisionFree(env) && PreparedAddress.ValidWorld(env, w) && PreparedAddress.ValidBinding(w, b)
    requires Materialize.Sound(env, entries) && (validation.Full? || Materialize.Intact(env, entries))
    requires b.overlay.None? && b.target.work.Graph? && ValidGraph(g) && RunsGraph(env, b.target, g, provider)
    ensures var r := Materialize.MaterializeBinding(env, entries, w, b, Materialize.OnHost, validation).1;
            r.Ok? ==> r.value.Prepared? && Evaluates(g, InputViews(PreparedAddress.SourceBytes(w, b)), provider, r.value.bytes)
  {
    hide ValidGraph, Evaluates, PreparedAddress.CollisionFree, PreparedAddress.ValidWorld, PreparedAddress.ValidBinding;
    hide Materialize.Sound, Materialize.Intact, Materialize.MaterializeBinding, PreparedAddress.SourceBytes;
    Materialize.SourcesExist(w, b);
    Materialize.HostTransparency(env, entries, w, b, validation);
    assert Materialize.Uncached(env, w, b, Materialize.OnHost) == Materialize.Execute(env, w, b, Materialize.OnHost);
  }
}

/** The static scratch estimate against execution: source reuse by providers never raises the
    peak, and exactly where the reported scratch can still exceed the estimate. */
module Scratch {
  import opened Checked
  import opened Shapes
  import opened Facts
  import opened Operations
  import opened Graphs
  import opened Evaluation
  import opened Liveness
  import opened GraphSchedule

  // ---------- Live bytes under more sharing ----------

  /** `x` shares at least what `e` shares: equal allocations stay equal, external mappings stay
      external, and the same values are live. */
  ghost predicate Coupled(e: Schedule, x: Schedule) {
    e.uses == x.uses && e.values.Keys == x.values.Keys && x.next <= e.next && x.peak <= e.peak
    && (forall v, w :: v in e.values && w in e.values && e.values[v].Some? && e.values[v] == e.values[w] ==>
          x.values[v] == x.values[w])
    && (forall v :: v in e.values && e.values[v].None? ==> x.values[v].None?)
  }

  /** An injection that keeps sizes bounds the total. */
  lemma {:induction false} InjectionBoundsTotal(a: map<nat, Alloc>, n: nat, b: map<nat, Alloc>, m: nat, f: map<nat, nat>)
    requires forall i :: i in a && i < n ==> i in f && f[i] in b && f[i] < m && b[f[i]].bytes == a[i].bytes
    requires forall i, j :: i in a && j in a && i < n && j < n && i != j ==> f[i] != f[j]
    ensures TotalBelow(a, n) <= TotalBelow(b, m)
  {
    if n > 0 {
      if n - 1 in a {
        TotalRemoved(b, f[n - 1], m);
        InjectionBoundsTotal(a, n - 1, b - {f[n - 1]}, m, f);
      } else {
        InjectionBoundsTotal(a, n - 1, b, m, f);
      }
    }
  }

  ghost function Holder(s: Schedule, a: nat, size: Liveness.Sizes): (v: ValueRef)
    requires Accounted(s, size) && a in s.allocations
    ensures v in s.values && s.values[v] == Some(a)
  {
    HasHolder(s, a, size);
    var v :| v in Holders(s.values, a);
    v
  }

  lemma HasHolder(s: Schedule, a: nat, size: Liveness.Sizes)
    requires Accounted(s, size) && a in s.allocations
    ensures exists v :: v in Holders(s.values, a)
  {
    var holders := Holders(s.values, a);
    assert |holders| > 0;
    assert holders != {};
  }

  /** More sharing needs no more live bytes. */
  lemma MoreSharingIsLive(e: Schedule, x: Schedule, size: Liveness.Sizes)
    requires Accounted(e, size) && Accounted(x, size) && Coupled(e, x)
    ensures x.live <= e.live
  {
    hide Holders;
    forall a | a in x.allocations ensures e.values[Holder(x, a, size)].Some? {
    }
    var f := map a | a in x.allocations :: e.values[Holder(x, a, size)].value;
    InjectionBoundsTotal(x.allocations, x.next, e.allocations, e.next, f);
  }

  // ---------- One node ----------

  ghost predicate ReferencesBelow(s: Schedule, n: nat) {
    forall a :: a in s.allocations ==> s.allocations[a].references <= n
  }

  /** A new value that shares in both schedules, or only in the second, or in neither. */
  lemma CoupledAdd(e: Schedule, x: Schedule, e': Schedule, x': Schedule, v: ValueRef, ea: Option<nat>, xa: Option<nat>)
    requires Coupled(e, x) && v !in e.values
    requires e'.values == e.values[v := ea] && x'.values == x.values[v := xa]
    requires e'.uses == e.uses && x'.uses == x.uses && x'.next <= e'.next && x'.peak <= e'.peak
    requires ea.None? ==> xa.None?
    requires forall w :: w in e.values && ea.Some? && e.values[w] == ea ==> x.values[w] == xa
    ensures Coupled(e', x')
  {
  }

  lemma FreshNumberIsNew(s: Schedule, size: Liveness.Sizes, w: ValueRef)
    requires Accounted(s, size) && w in s.values
    ensures s.values[w] != Some(s.next)
  {
  }

  /** When a run can produce the outputs of a node, so can a run with more reuse, and it stays
      coupled. */
  lemma {:induction false} ProduceCoupled(g: Graph, e: Schedule, x: Schedule, k: nat, lower: bool, reused: bool, o: nat)
    requires ValidGraph(g) && k < |g.nodes| && o <= |g.nodes[k].outputs| && CanReuse(g, k, lower) && CanReuse(g, k, reused)
    requires lower ==> reused
    requires Accounted(e, SizeOf(g)) && Accounted(x, SizeOf(g)) && Coupled(e, x)
    requires NotProduced(e, k, o) && ReferencesBelow(x, k + 1) && k <= U32_MAX
    requires forall i :: 0 <= i < |g.nodes[k].inputs| ==> g.nodes[k].inputs[i] in e.values
    requires Produce(e, g, k, lower, o).Ok?
    ensures Produce(x, g, k, reused, o).Ok?
    ensures var e', x' := Produce(e, g, k, lower, o).value, Produce(x, g, k, reused, o).value;
            Coupled(e', x') && ReferencesBelow(x', k + 2)
    decreases |g.nodes[k].outputs| - o
  {
    hide ValidGraph, Accounted, InsertValue, AddFresh, SharesInput, CanReuse, Coupled, SizeOf;
    if o < |g.nodes[k].outputs| {
      var v := NodeOutput(k, o);
      SharedInBoth(g, k, o, lower, reused);
      MoreSharingIsLive(e, x, SizeOf(g));
      CoupledKeys(e, x, v);
      SizeOfOutput(g, k, o);
      if SharesInput(g, k, o, lower) {
        SharedSize(g, k, o, reused);
        CoupledKeys(e, x, g.nodes[k].inputs[0]);
        ProduceBothShared(g, e, x, k, o);
      } else if SharesInput(g, k, o, reused) {
        SharedSize(g, k, o, reused);
        CoupledKeys(e, x, g.nodes[k].inputs[0]);
        ProduceOneShared(g, e, x, k, o);
      } else {
        ProduceBothFresh(g, e, x, k, o);
        var e', x' := AddFresh(e, v, g.nodes[k].outputs[o].byteLen).value, AddFresh(x, v, g.nodes[k].outputs[o].byteLen).value;
        ProduceCoupled(g, e', x', k, lower, reused, o + 1);
      }
    }
  }

  lemma SizeOfOutput(g: Graph, k: nat, o: nat)
    requires k < |g.nodes| && o < |g.nodes[k].outputs|
    ensures SizeOf(g)(NodeOutput(k, o)) == g.nodes[k].outputs[o].byteLen
  {
  }

  lemma SharedInBoth(g: Graph, k: nat, o: nat, lower: bool, reused: bool)
    requires k < |g.nodes| && (lower ==> reused)
    ensures CanReuse(g, k, false)
    ensures SharesInput(g, k, o, lower) ==> SharesInput(g, k, o, reused)
  {
  }

  lemma CoupledKeys(e: Schedule, x: Schedule, v: ValueRef)
    requires Coupled(e, x)
    ensures v in e.values <==> v in x.values
    ensures x.next <= e.next && x.peak <= e.peak
  {
  }

  /** Sharing an input: references stay far from overflow. */
  lemma ShareAdds(s: Schedule, v: ValueRef, u: ValueRef, size: Liveness.Sizes, k: nat)
    requires Accounted(s, size) && v !in s.values && u in s.values && size(v) == size(u)
    requires ReferencesBelow(s, k + 1) && k <= U32_MAX
    ensures var r := InsertValue(s, v, s.values[u]);
            r.Ok? && ReferencesBelow(r.value, k + 2)
  {
    AliasIsAccounted(s, v, u, size);
  }

  lemma ProduceBothShared(g: Graph, e: Schedule, x: Schedule, k: nat, o: nat)
    requires k < |g.nodes| && o < |g.nodes[k].outputs| && |g.nodes[k].inputs| > 0
    requires Accounted(e, SizeOf(g)) && Accounted(x, SizeOf(g)) && Coupled(e, x)
    requires NodeOutput(k, o) !in e.values && NodeOutput(k, o) !in x.values && ReferencesBelow(x, k + 1) && k <= U32_MAX
    requires g.nodes[k].inputs[0] in e.values && g.nodes[k].inputs[0] in x.values
    requires SizeOf(g)(NodeOutput(k, o)) == SizeOf(g)(g.nodes[k].inputs[0])
    requires InsertValue(e, NodeOutput(k, o), e.values[g.nodes[k].inputs[0]]).Ok?
    ensures InsertValue(x, NodeOutput(k, o), x.values[g.nodes[k].inputs[0]]).Ok?
    ensures var x' := InsertValue(x, NodeOutput(k, o), x.values[g.nodes[k].inputs[0]]).value;
            Coupled(InsertValue(e, NodeOutput(k, o), e.values[g.nodes[k].inputs[0]]).value, x') && ReferencesBelow(x', k + 2)
  {
    hide Accounted, SizeOf, InsertValue;
    var v, u := NodeOutput(k, o), g.nodes[k].inputs[0];
    AliasIsAccounted(e, v, u, SizeOf(g));
    AliasIsAccounted(x, v, u, SizeOf(g));
    ShareAdds(x, v, u, SizeOf(g), k);
    CoupledAdd(e, x, InsertValue(e, v, e.values[u]).value, InsertValue(x, v, x.values[u]).value, v, e.values[u], x.values[u]);
  }

  lemma ProduceOneShared(g: Graph, e: Schedule, x: Schedule, k: nat, o: nat)
    requires k < |g.nodes| && o < |g.nodes[k].outputs| && |g.nodes[k].inputs| > 0
    requires Accounted(e, SizeOf(g)) && Accounted(x, SizeOf(g)) && Coupled(e, x)
    requires NodeOutput(k, o) !in e.values && NodeOutput(k, o) !in x.values && ReferencesBelow(x, k + 1) && k <= U32_MAX
    requires g.nodes[k].inputs[0] in e.values && g.nodes[k].inputs[0] in x.values
    requires SizeOf(g)(NodeOutput(k, o)) == SizeOf(g)(g.nodes[k].inputs[0]) == g.nodes[k].outputs[o].byteLen
    requires AddFresh(e, NodeOutput(k, o), g.nodes[k].outputs[o].byteLen).Ok?
    ensures InsertValue(x, NodeOutput(k, o), x.values[g.nodes[k].inputs[0]]).Ok?
    ensures var x' := InsertValue(x, NodeOutput(k, o), x.values[g.nodes[k].inputs[0]]).value;
            Coupled(AddFresh(e, NodeOutput(k, o), g.nodes[k].outputs[o].byteLen).value, x') && ReferencesBelow(x', k + 2)
  {
    hide Accounted, SizeOf, InsertValue, AddFresh;
    var v, u := NodeOutput(k, o), g.nodes[k].inputs[0];
    FreshIsAccounted(e, v, SizeOf(g));
    AliasIsAccounted(x, v, u, SizeOf(g));
    ShareAdds(x, v, u, SizeOf(g), k);
    forall w | w in e.values ensures e.values[w] != Some(e.next) {
      FreshNumberIsNew(e, SizeOf(g), w);
    }
    CoupledAdd(e, x, AddFresh(e, v, g.nodes[k].outputs[o].byteLen).value, InsertValue(x, v, x.values[u]).value, v,
               Some(e.next), x.values[u]);
  }

  lemma ProduceBothFresh(g: Graph, e: Schedule, x: Schedule, k: nat, o: nat)
    requires k < |g.nodes| && o < |g.nodes[k].outputs|
    requires Accounted(e, SizeOf(g)) && Accounted(x, SizeOf(g)) && Coupled(e, x) && x.live <= e.live
    requires NodeOutput(k, o) !in e.values && NodeOutput(k, o) !in x.values && ReferencesBelow(x, k + 1)
    requires SizeOf(g)(NodeOutput(k, o)) == g.nodes[k].outputs[o].byteLen
    requires AddFresh(e, NodeOutput(k, o), g.nodes[k].outputs[o].byteLen).Ok?
    ensures AddFresh(x, NodeOutput(k, o), g.nodes[k].outputs[o].byteLen).Ok?
    ensures var e', x' := AddFresh(e, NodeOutput(k, o), g.nodes[k].outputs[o].byteLen).value,
                          AddFresh(x, NodeOutput(k, o), g.nodes[k].outputs[o].byteLen).value;
            Coupled(e', x') && ReferencesBelow(x', k + 1) && Accounted(e', SizeOf(g)) && Accounted(x', SizeOf(g))
            && e'.values == e.values[NodeOutput(k, o) := Some(e.next)]
  {
    hide Accounted, SizeOf;
    var v, bytes := NodeOutput(k, o), g.nodes[k].outputs[o].byteLen;
    FreshIsAccounted(e, v, SizeOf(g));
    FreshIsAccounted(x, v, SizeOf(g));
    CoupledKeys(e, x, v);
    forall w | w in e.values ensures e.values[w] != Some(e.next) {
      FreshNumberIsNew(e, SizeOf(g), w);
    }
    CoupledAdd(e, x, AddFresh(e, v, bytes).value, AddFresh(x, v, bytes).value, v, Some(e.next), Some(x.next));
  }

  lemma ObserveCoupled(e: Schedule, x: Schedule, more: nat, less: nat, size: Liveness.Sizes)
    requires Accounted(e, size) && Accounted(x, size) && Coupled(e, x) && less <= more && ObserveTransient(e, more).Ok?
    ensures ObserveTransient(x, less).Ok?
    ensures Coupled(ObserveTransient(e, more).value, ObserveTransient(x, less).value)
  {
    MoreSharingIsLive(e, x, size);
  }

  lemma DropCoupled(e: Schedule, x: Schedule, e': Schedule, x': Schedule, gone: set<ValueRef>, total: multiset<ValueRef>,
                    pending: multiset<ValueRef>)
    requires Coupled(e, x) && Dropped(e', e, gone) && Dropped(x', x, gone)
    requires UsesAre(e', total, pending) && UsesAre(x', total, pending)
    ensures Coupled(e', x')
  {
    assert e'.uses == x'.uses;
  }

  /** One node keeps the coupling, and cannot fail where the run with less reuse succeeds. */
  lemma NodeStepCoupled(g: Graph, e: Schedule, x: Schedule, k: nat, lower: bool, reused: bool)
    requires ValidGraph(g) && k < |g.nodes| && CanReuse(g, k, lower) && CanReuse(g, k, reused) && (lower ==> reused)
    requires Accounted(e, SizeOf(g)) && Accounted(x, SizeOf(g)) && Coupled(e, x)
    requires Tracks(g, e, k) && Tracks(g, x, k) && ReferencesBelow(x, k + 1)
    requires NodeStep(e, g, k, lower).Ok?
    ensures NodeStep(x, g, k, reused).Ok?
    ensures Coupled(NodeStep(e, g, k, lower).value, NodeStep(x, g, k, reused).value)
    ensures ReferencesBelow(NodeStep(x, g, k, reused).value, k + 2)
  {
    hide NewFacts, InferOutputs, ValidInputs, Accounted, Coupled, Produce, Cleanup, CanReuse, SizeOf, Tracks, ObserveTransient;
    NodeInputsLive(g, e, k);
    NodeInputsLive(g, x, k);
    ProduceCoupled(g, e, x, k, lower, reused, 0);
    ProduceAdds(e, g, k, lower, 0);
    ProduceAdds(x, g, k, reused, 0);
    var e1, x1 := Produce(e, g, k, lower, 0).value, Produce(x, g, k, reused, 0).value;
    var more, less := Transient(g, k, lower), Transient(g, k, reused);
    ObserveCoupled(e1, x1, more, less, SizeOf(g));
    var e2, x2 := ObserveTransient(e1, more).value, ObserveTransient(x1, less).value;
    ObserveAdds(e, e1, g, k, more);
    ObserveAdds(x, x1, g, k, less);
    CleanupTracks(g, e, k, e2);
    CleanupTracks(g, x, k, x2);
    var e3, x3 := Cleanup(e2, g, k).value, Cleanup(x2, g, k).value;
    TracksUses(g, e3, k + 1);
    TracksUses(g, x3, k + 1);
    DropCoupled(e2, x2, e3, x3, Discarded(g, k), Pending(g, 0), Pending(g, k + 1));
  }

  lemma TracksUses(g: Graph, s: Schedule, k: nat)
    requires k <= |g.nodes| && Tracks(g, s, k)
    ensures UsesAre(s, Pending(g, 0), Pending(g, k))
  {
  }

  lemma ObserveAdds(s: Schedule, t: Schedule, g: Graph, k: nat, scratch: nat)
    requires k < |g.nodes| && Added(t, s, g, k, 0) && Accounted(t, SizeOf(g)) && ObserveTransient(t, scratch).Ok?
    ensures var u := ObserveTransient(t, scratch).value;
            Added(u, s, g, k, 0) && Accounted(u, SizeOf(g)) && u.allocations == t.allocations
  {
    TransientIsAccounted(t, scratch, SizeOf(g));
  }

  /** Every preparation that shares its source in `lower` shares it in `upper`. */
  ghost predicate LessReuse(lower: seq<bool>, upper: seq<bool>) {
    |lower| == |upper| && forall k :: 0 <= k < |lower| ==> lower[k] ==> upper[k]
  }

  /** Wherever a run is defined, a run with more reuse is, with no higher peak; the estimate is
      the run with the least reuse. */
  lemma {:induction false} RunCoupled(g: Graph, lower: seq<bool>, upper: seq<bool>, k: nat)
    requires ValidGraph(g) && Reuses(g, lower) && Reuses(g, upper) && LessReuse(lower, upper)
    requires k <= |g.nodes| && Run(g, lower, k).Ok?
    ensures Run(g, upper, k).Ok?
    ensures var e, x := Run(g, lower, k).value, Run(g, upper, k).value;
            Coupled(e, x) && ReferencesBelow(x, k + 1)
  {
    hide Accounted, Coupled, NodeStep, Tracks, NewFacts, InferOutputs, ValidInputs, CanReuse;
    if k == 0 {
      SelfCoupled(g);
    } else {
      RunCoupled(g, lower, upper, k - 1);
      RunTracks(g, lower, k - 1);
      RunTracks(g, upper, k - 1);
      NodeStepCoupled(g, Run(g, lower, k - 1).value, Run(g, upper, k - 1).value, k - 1, lower[k - 1], upper[k - 1]);
    }
  }

  lemma NoReuseIsValid(g: Graph)
    ensures Reuses(g, NoReuse(g))
  {
  }

  lemma SelfCoupled(g: Graph)
    requires Initial(g).Ok?
    ensures Coupled(Initial(g).value, Initial(g).value) && ReferencesBelow(Initial(g).value, 1)
  {
  }

  // ---------- The reported scratch ----------

  /** The scratch a run reports: its peak without the allocation that is returned. */
  ghost function Reported(g: Graph, reuse: seq<bool>): Result<nat>
    requires |reuse| == |g.nodes|
  {
    var s :- Run(g, reuse, |g.nodes|);
    ScratchExcluding(s, g.output)
  }

  /** The static estimate assumes that every preparation allocates. */
  ghost function Estimate(g: Graph): Result<nat> {
    Reported(g, NoReuse(g))
  }

  lemma {:induction false} AllocationBelowTotal(a: map<nat, Alloc>, i: nat, n: nat)
    requires i in a && i < n
    ensures a[i].bytes <= TotalBelow(a, n)
  {
    TotalRemoved(a, i, n);
  }

  /** The final accounting of a run: the output is live, and it has the output's size unless it
      is an external mapping. */
  lemma FinalOutput(g: Graph, reuse: seq<bool>)
    requires ValidGraph(g) && Reuses(g, reuse) && Run(g, reuse, |g.nodes|).Ok?
    ensures var s := Run(g, reuse, |g.nodes|).value;
            g.output in s.values && Reported(g, reuse).Ok?
            && AllocationBytes(s, g.output) == (if s.values[g.output].Some? then SizeOf(g)(g.output) else 0)
            && Reported(g, reuse).value == s.peak - AllocationBytes(s, g.output)
  {
    hide ValidGraph, SizeOf, CanReuse, Run, Pending;
    OutputIsAvailable(g);
    RunTracks(g, reuse, |g.nodes|);
    OutputIsPending(g, |g.nodes|);
    var s := Run(g, reuse, |g.nodes|).value;
    assert IsLive(g, g.output, |g.nodes|);
    if s.values[g.output].Some? {
      AllocationBelowTotal(s.allocations, s.values[g.output].value, s.next);
    }
  }

  /** The unconditional bound: the peak of every run stays within the estimate plus the output
      length, whatever the providers reuse. */
  lemma PeakWithinEstimateAndOutput(g: Graph, reuse: seq<bool>)
    requires ValidGraph(g) && Reuses(g, reuse) && Estimate(g).Ok?
    ensures Reported(g, reuse).Ok? && Available(g, g.output, |g.nodes|)
    ensures Run(g, reuse, |g.nodes|).value.peak <= Estimate(g).value + FactsOf(g, g.output).byteLen
  {
    hide ValidGraph, CanReuse, Run;
    OutputIsAvailable(g);
    NoReuseIsValid(g);
    RunCoupled(g, NoReuse(g), reuse, |g.nodes|);
    FinalOutput(g, NoReuse(g));
    FinalOutput(g, reuse);
  }

  /** The value shares an external mapping through aliases and reused preparations. */
  predicate Mapped(g: Graph, reuse: seq<bool>, v: ValueRef)
    requires ValidGraph(g) && |reuse| == |g.nodes| && Available(g, v, |g.nodes|)
    decreases Rank(v)
  {
    match v
    case Input(_) => true
    case NodeOutput(n, o) =>
      NodeIsTyped(g, n);
      SharesInput(g, n, o, reuse[n]) && Mapped(g, reuse, g.nodes[n].inputs[0])
  }

  /** Values of a run are external exactly when they are mapped. */
  ghost predicate MapsExternally(g: Graph, reuse: seq<bool>, s: Schedule)
    requires ValidGraph(g) && |reuse| == |g.nodes|
  {
    forall v :: v in s.values && Available(g, v, |g.nodes|) ==> (s.values[v].None? <==> Mapped(g, reuse, v))
  }

  lemma InsertMaps(g: Graph, reuse: seq<bool>, s: Schedule, v: ValueRef, a: Option<nat>, u: ValueRef)
    requires ValidGraph(g) && |reuse| == |g.nodes| && MapsExternally(g, reuse, s) && InsertValue(s, v, a).Ok?
    requires Available(g, v, |g.nodes|) && Available(g, u, |g.nodes|) && u in s.values && s.values[u] == a
    requires Mapped(g, reuse, v) <==> Mapped(g, reuse, u)
    ensures MapsExternally(g, reuse, InsertValue(s, v, a).value)
  {
    hide ValidGraph, Mapped;
  }

  lemma FreshMaps(g: Graph, reuse: seq<bool>, s: Schedule, v: ValueRef, bytes: nat)
    requires ValidGraph(g) && |reuse| == |g.nodes| && MapsExternally(g, reuse, s) && AddFresh(s, v, bytes).Ok?
    requires Available(g, v, |g.nodes|) && !Mapped(g, reuse, v)
    ensures MapsExternally(g, reuse, AddFresh(s, v, bytes).value)
  {
    hide ValidGraph, Mapped;
  }

  lemma {:induction false} ProduceMaps(g: Graph, reuse: seq<bool>, s: Schedule, k: nat, o: nat)
    requires ValidGraph(g) && Reuses(g, reuse) && k < |g.nodes| && o <= |g.nodes[k].outputs|
    requires MapsExternally(g, reuse, s) && Produce(s, g, k, reuse[k], o).Ok?
    ensures MapsExternally(g, reuse, Produce(s, g, k, reuse[k], o).value)
    decreases |g.nodes[k].outputs| - o
  {
    hide ValidGraph, SharesInput, CanReuse, MapsExternally, InsertValue, AddFresh;
    if o < |g.nodes[k].outputs| {
      NodeIsTyped(g, k);
      var v := NodeOutput(k, o);
      if SharesInput(g, k, o, reuse[k]) {
        SharedSize(g, k, o, reuse[k]);
        var u := g.nodes[k].inputs[0];
        var t := InsertValue(s, v, s.values[u]).value;
        InsertMaps(g, reuse, s, v, s.values[u], u);
        ProduceMaps(g, reuse, t, k, o + 1);
      } else {
        var t := AddFresh(s, v, g.nodes[k].outputs[o].byteLen).value;
        FreshMaps(g, reuse, s, v, g.nodes[k].outputs[o].byteLen);
        ProduceMaps(g, reuse, t, k, o + 1);
      }
    }
  }

  /** Values that stay keep their mapping. */
  lemma DroppedMaps(g: Graph, reuse: seq<bool>, s: Schedule, t: Schedule, u: Schedule, gone: set<ValueRef>)
    requires ValidGraph(g) && |reuse| == |g.nodes| && MapsExternally(g, reuse, s)
    requires t.values == s.values && Dropped(u, t, gone)
    ensures MapsExternally(g, reuse, u)
  {
    hide ValidGraph, Mapped;
  }

  lemma {:induction false} RunMaps(g: Graph, reuse: seq<bool>, k: nat)
    requires ValidGraph(g) && Reuses(g, reuse) && k <= |g.nodes| && Run(g, reuse, k).Ok?
    ensures MapsExternally(g, reuse, Run(g, reuse, k).value)
  {
    hide ValidGraph, CanReuse, Accounted, Tracks, Cleanup, Produce, SizeOf, Dropped;
    if k > 0 {
      hide MapsExternally;
      var s := Run(g, reuse, k - 1).value;
      RunMaps(g, reuse, k - 1);
      RunTracks(g, reuse, k - 1);
      NodeInputsLive(g, s, k - 1);
      ProduceAdds(s, g, k - 1, reuse[k - 1], 0);
      ProduceMaps(g, reuse, s, k - 1, 0);
      var produced := Produce(s, g, k - 1, reuse[k - 1], 0).value;
      var t := ObserveTransient(produced, Transient(g, k - 1, reuse[k - 1])).value;
      ObserveAdds(s, produced, g, k - 1, Transient(g, k - 1, reuse[k - 1]));
      CleanupTracks(g, s, k - 1, t);
      DroppedMaps(g, reuse, produced, t, Cleanup(t, g, k - 1).value, Discarded(g, k - 1));
    }
  }

  /** The reported scratch stays within the estimate unless the output became an external
      mapping only through source reuse. */
  lemma ReportedWithinEstimate(g: Graph, reuse: seq<bool>)
    requires ValidGraph(g) && Reuses(g, reuse) && Estimate(g).Ok? && Available(g, g.output, |g.nodes|)
    requires Mapped(g, reuse, g.output) ==> Mapped(g, NoReuse(g), g.output)
    ensures Reported(g, reuse).Ok? && Reported(g, reuse).value <= Estimate(g).value
  {
    hide ValidGraph, CanReuse, Run, Mapped;
    NoReuseIsValid(g);
    RunCoupled(g, NoReuse(g), reuse, |g.nodes|);
    FinalOutput(g, NoReuse(g));
    FinalOutput(g, reuse);
    RunMaps(g, NoReuse(g), |g.nodes|);
    RunMaps(g, reuse, |g.nodes|);
  }

  // ---------- Exactly when the estimate holds ----------

  /** The preparations between an external input and a value, through metadata-only nodes and
      preparations that can share their source. */
  function Chain(g: Graph, v: ValueRef): set<nat>
    requires ValidGraph(g) && Available(g, v, |g.nodes|)
    decreases Rank(v)
  {
    match v
    case Input(_) => {}
    case NodeOutput(n, o) =>
      NodeIsTyped(g, n);
      if AliasesInput(g, n, o) then Chain(g, g.nodes[n].inputs[0])
      else if CanReuse(g, n, true) then {n} + Chain(g, g.nodes[n].inputs[0])
      else {}
  }

  /** Only the preparations on the chain under the output share their source. */
  function ChainReuse(g: Graph): (reuse: seq<bool>)
    requires ValidGraph(g) && Available(g, g.output, |g.nodes|)
    ensures |reuse| == |g.nodes|
  {
    seq(|g.nodes|, k => k in Chain(g, g.output))
  }

  lemma {:induction false} ChainCanReuse(g: Graph, v: ValueRef, k: nat)
    requires ValidGraph(g) && Available(g, v, |g.nodes|) && k in Chain(g, v)
    ensures k < |g.nodes| && CanReuse(g, k, true)
    decreases Rank(v)
  {
    hide ValidGraph, CanReuse, AliasesInput;
    NodeIsTyped(g, v.node);
    if k != v.node || AliasesInput(g, v.node, v.output) {
      ChainCanReuse(g, g.nodes[v.node].inputs[0], k);
    }
  }

  /** A mapped value shares along its whole chain, and sharing along the chain already maps it. */
  lemma {:induction false} MappedIsChain(g: Graph, reuse: seq<bool>, least: seq<bool>, v: ValueRef)
    requires ValidGraph(g) && Reuses(g, reuse) && |least| == |g.nodes| && Available(g, v, |g.nodes|)
    requires Mapped(g, reuse, v) && forall k :: k in Chain(g, v) && k < |least| ==> least[k]
    ensures Mapped(g, least, v)
    ensures forall k :: k in Chain(g, v) ==> k < |g.nodes| && reuse[k]
    decreases Rank(v)
  {
    hide ValidGraph, AliasesInput;
    if v.NodeOutput? {
      NodeIsTyped(g, v.node);
      MappedIsChain(g, reuse, least, g.nodes[v.node].inputs[0]);
    }
  }

  lemma ChainReuseIsValid(g: Graph)
    requires ValidGraph(g) && Available(g, g.output, |g.nodes|)
    ensures Reuses(g, ChainReuse(g)) && LessReuse(NoReuse(g), ChainReuse(g))
  {
    hide ValidGraph, CanReuse, Chain;
    forall k | 0 <= k < |g.nodes| ensures CanReuse(g, k, ChainReuse(g)[k]) {
      if k in Chain(g, g.output) {
        ChainCanReuse(g, g.output, k);
      } else {
        SharedInBoth(g, k, 0, false, false);
      }
    }
  }

  lemma ChainIsLeast(g: Graph, reuse: seq<bool>)
    requires ValidGraph(g) && |reuse| == |g.nodes| && Available(g, g.output, |g.nodes|)
    requires forall k :: k in Chain(g, g.output) ==> k < |g.nodes| && reuse[k]
    ensures LessReuse(ChainReuse(g), reuse)
  {
    hide Chain;
  }

  /** No run reports more than the larger of the estimate and the chain run. */
  lemma ChainReuseIsWorst(g: Graph, reuse: seq<bool>)
    requires ValidGraph(g) && Reuses(g, reuse) && Estimate(g).Ok? && Available(g, g.output, |g.nodes|)
    ensures Reported(g, reuse).Ok? && Reported(g, ChainReuse(g)).Ok?
    ensures Reported(g, reuse).value <= Estimate(g).value || Reported(g, reuse).value <= Reported(g, ChainReuse(g)).value
  {
    hide ValidGraph, CanReuse, Run, Mapped, Chain, Coupled, NoReuse;
    var least := ChainReuse(g);
    ChainReuseIsValid(g);
    NoReuseIsValid(g);
    RunCoupled(g, NoReuse(g), least, |g.nodes|);
    FinalOutput(g, least);
    if Mapped(g, reuse, g.output) {
      MappedIsChain(g, reuse, least, g.output);
      ChainIsLeast(g, reuse);
      RunCoupled(g, least, reuse, |g.nodes|);
      CoupledKeys(Run(g, least, |g.nodes|).value, Run(g, reuse, |g.nodes|).value, g.output);
      FinalOutput(g, reuse);
      RunMaps(g, least, |g.nodes|);
    } else {
      ReportedWithinEstimate(g, reuse);
    }
  }

  /** Every choice of source reuse stays within the estimate if and only if one choice does, the
      one in which exactly the preparations on the chain under the output share their source:
      a second simulation of the same liveness, before anything runs. */
  lemma ReportedWithinEstimateExactly(g: Graph)
    requires ValidGraph(g) && Estimate(g).Ok? && Available(g, g.output, |g.nodes|)
    ensures Reuses(g, ChainReuse(g)) && Reported(g, ChainReuse(g)).Ok?
    ensures (forall reuse :: Reuses(g, reuse) ==> Reported(g, reuse).Ok? && Reported(g, reuse).value <= Estimate(g).value)
            <==> Reported(g, ChainReuse(g)).value <= Estimate(g).value
  {
    hide ValidGraph, Reported, ChainReuse, CanReuse;
    ChainReuseIsValid(g);
    NoReuseIsValid(g);
    ChainReuseIsWorst(g, NoReuse(g));
    forall reuse | Reuses(g, reuse)
      ensures Reported(g, reuse).Ok?
      ensures Reported(g, reuse).value <= Estimate(g).value || Reported(g, reuse).value <= Reported(g, ChainReuse(g)).value
    {
      ChainReuseIsWorst(g, reuse);
    }
  }

  /** The outputs of one node in the estimate. */
  method EstimateOutputs(g: Graph, k: nat, schedule: LivenessSchedule) returns (r: Result<()>)
    requires k < |g.nodes|
    modifies schedule
    ensures var spec := Produce(old(schedule.State()), g, k, false, 0);
            (spec.Ok? ==> r.Ok? && schedule.State() == spec.value) && (spec.Err? ==> r == Err(spec.error))
  {
    hide CreateAllocation, InsertValue, AliasesInput;
    ghost var start := schedule.State();
    var o := 0;
    while o < |g.nodes[k].outputs|
      invariant 0 <= o <= |g.nodes[k].outputs|
      invariant Produce(start, g, k, false, 0) == Produce(schedule.State(), g, k, false, o)
    {
      var allocation: Option<nat>;
      if AliasesInput(g, k, o) {
        OnlySingleInput(g, k, o);
        var input := g.nodes[k].inputs[0];
        if input !in schedule.values {
          return Err(Integrity);
        }
        allocation := schedule.values[input];
      } else {
        var created :- schedule.Create(g.nodes[k].outputs[o].byteLen);
        allocation := Some(created);
      }
      var _ :- schedule.Insert(NodeOutput(k, o), allocation);
      o := o + 1;
    }
    return Ok(());
  }

  lemma OnlySingleInput(g: Graph, k: nat, o: nat)
    requires k < |g.nodes| && AliasesInput(g, k, o)
    ensures |g.nodes[k].inputs| == 1
  {
  }

  /** The estimate follows the liveness of the nodes, as execution does. */
  method EstimateHostScratchBytes(g: Graph) returns (r: Result<nat>)
    ensures r == Estimate(g)
  {
    hide Produce, ConsumeInputs, RemoveUnused, ObserveTransient, Initial;
    ghost var none := NoReuse(g);
    var started := NewSchedule(g);
    if started.Err? {
      FailedStart(g);
      return Err(started.error);
    }
    var schedule := started.value;
    var k := 0;
    while k < |g.nodes|
      invariant 0 <= k <= |g.nodes| && fresh(schedule) && Run(g, none, k) == Ok(schedule.State())
    {
      var step := EstimateNode(g, k, schedule);
      if step.Err? {
        FailureStays(g, none, k + 1, |g.nodes|);
        return Err(step.error);
      }
      k := k + 1;
    }
    r := schedule.Scratch(g.output);
  }

  method EstimateNode(g: Graph, k: nat, schedule: LivenessSchedule) returns (r: Result<()>)
    requires k < |g.nodes|
    modifies schedule
    ensures var spec := NodeStep(old(schedule.State()), g, k, false);
            (spec.Ok? ==> r.Ok? && schedule.State() == spec.value) && (spec.Err? ==> r == Err(spec.error))
  {
    hide Produce, ConsumeInputs, RemoveUnused, ObserveTransient;
    var _ :- EstimateOutputs(g, k, schedule);
    var transient := if g.nodes[k].operation.Prepare? then g.nodes[k].operation.transform.scratchBytes else 0;
    var _ :- schedule.Observe(transient);
    var _ :- schedule.ConsumeAll(g.nodes[k].inputs);
    r := schedule.RemoveAllUnused(OutputsOf(k, |g.nodes[k].outputs|));
  }

  lemma FailedStart(g: Graph)
    requires Initial(g).Err?
    ensures Estimate(g) == Err(ResourceLimit)
  {
    FailureStays(g, NoReuse(g), 0, |g.nodes|);
  }

  lemma {:induction false} FailureStays(g: Graph, reuse: seq<bool>, k: nat, n: nat)
    requires k <= n <= |g.nodes| && n <= |reuse| && Run(g, reuse, k).Err?
    ensures Run(g, reuse, n) == Run(g, reuse, k)
  {
    hide NodeStep;
    if k < n {
      FailureStays(g, reuse, k, n - 1);
    }
  }

  // ---------- Graphs whose every node reaches the output ----------

  /** A node output is the graph output, or an input of a later node that reaches it. */
  predicate Reaches(g: Graph, k: nat)
    requires k < |g.nodes|
    decreases |g.nodes| - k
  {
    IsOutputOf(g.output, k)
    || exists j, i :: k < j < |g.nodes| && 0 <= i < |g.nodes[j].inputs| && IsOutputOf(g.nodes[j].inputs[i], k) && Reaches(g, j)
  }

  predicate IsOutputOf(v: ValueRef, k: nat) {
    v.NodeOutput? && v.node == k
  }

  /** The node passes its single input through. */
  predicate PassesThrough(g: Graph, reuse: seq<bool>, k: nat)
    requires |reuse| == |g.nodes| && k < |g.nodes|
  {
    |g.nodes[k].outputs| == 1 && |g.nodes[k].inputs| == 1 && SharesInput(g, k, 0, reuse[k])
  }

  /** When the output is mapped, a node that reaches it lies on the mapped chain. */
  lemma {:induction false} ReachingNodeIsOnChain(g: Graph, reuse: seq<bool>, k: nat)
    requires ValidGraph(g) && Reuses(g, reuse) && k < |g.nodes| && Reaches(g, k)
    requires Available(g, g.output, |g.nodes|) && Mapped(g, reuse, g.output)
    ensures PassesThrough(g, reuse, k) && Available(g, NodeOutput(k, 0), |g.nodes|) && Mapped(g, reuse, NodeOutput(k, 0))
    decreases |g.nodes| - k
  {
    hide ValidGraph, SharesInput, CanReuse;
    if IsOutputOf(g.output, k) {
      SharedSize(g, k, g.output.output, reuse[k]);
    } else {
      var j, i :| k < j < |g.nodes| && 0 <= i < |g.nodes[j].inputs| && IsOutputOf(g.nodes[j].inputs[i], k) && Reaches(g, j);
      ReachingNodeIsOnChain(g, reuse, j);
      NodeIsTyped(g, j);
      var v := g.nodes[j].inputs[0];
      assert Available(g, v, j);
      SharedSize(g, k, v.output, reuse[k]);
    }
  }

  /** A run in which every node passes its input through allocates nothing. */
  lemma {:induction false} PassingAllocatesNothing(g: Graph, reuse: seq<bool>, k: nat)
    requires ValidGraph(g) && Reuses(g, reuse) && k <= |g.nodes| && Run(g, reuse, k).Ok?
    requires forall n :: 0 <= n < |g.nodes| ==> PassesThrough(g, reuse, n)
    ensures Run(g, reuse, k).value.peak == 0
  {
    hide NewFacts, InferOutputs, ValidInputs, CanReuse, Tracks, Cleanup, SizeOf, Accounted, PassesThrough, Produce, Transient;
    hide ObserveTransient;
    if k > 0 {
      var s := Run(g, reuse, k - 1).value;
      PassingAllocatesNothing(g, reuse, k - 1);
      RunTracks(g, reuse, k - 1);
      NodeInputsLive(g, s, k - 1);
      ProduceAdds(s, g, k - 1, reuse[k - 1], 0);
      assert PassesThrough(g, reuse, k - 1);
      ProducePasses(s, g, reuse, k - 1);
      var produced := Produce(s, g, k - 1, reuse[k - 1], 0).value;
      var t := ObserveTransient(produced, Transient(g, k - 1, reuse[k - 1])).value;
      ObserveAdds(s, produced, g, k - 1, Transient(g, k - 1, reuse[k - 1]));
      CleanupTracks(g, s, k - 1, t);
    }
  }

  lemma ProducePasses(s: Schedule, g: Graph, reuse: seq<bool>, k: nat)
    requires |reuse| == |g.nodes| && k < |g.nodes| && PassesThrough(g, reuse, k)
    requires Accounted(s, SizeOf(g)) && s.peak == 0 && Produce(s, g, k, reuse[k], 0).Ok?
    ensures Transient(g, k, reuse[k]) == 0
    ensures Produce(s, g, k, reuse[k], 0).value.peak == 0
    ensures ObserveTransient(Produce(s, g, k, reuse[k], 0).value, 0).Ok?
    ensures ObserveTransient(Produce(s, g, k, reuse[k], 0).value, 0).value.peak == 0
  {
    hide AliasesInput, Accounted, SizeOf;
    AliasesInputIsNoPrepare(g, k);
    LiveIsBelowPeak(s, g);
    var v, u := NodeOutput(k, 0), g.nodes[k].inputs[0];
    var t := InsertValue(s, v, s.values[u]).value;
    assert Produce(t, g, k, reuse[k], 1) == Ok(t);
    assert Produce(s, g, k, reuse[k], 0) == Ok(t);
  }

  lemma AliasesInputIsNoPrepare(g: Graph, k: nat)
    requires k < |g.nodes|
    ensures AliasesInput(g, k, 0) ==> !g.nodes[k].operation.Prepare?
  {
  }

  lemma LiveIsBelowPeak(s: Schedule, g: Graph)
    requires Accounted(s, SizeOf(g))
    ensures s.live <= s.peak
  {
  }

  /** When every node reaches the output, the reported scratch never exceeds the estimate. */
  lemma ReportedWithinEstimateWhenAllReach(g: Graph, reuse: seq<bool>)
    requires ValidGraph(g) && Reuses(g, reuse) && Estimate(g).Ok?
    requires forall k :: 0 <= k < |g.nodes| ==> Reaches(g, k)
    ensures Reported(g, reuse).Ok? && Reported(g, reuse).value <= Estimate(g).value
  {
    hide ValidGraph, CanReuse, Run, Mapped, Reaches, PassesThrough;
    OutputIsAvailable(g);
    if Mapped(g, reuse, g.output) {
      forall k | 0 <= k < |g.nodes| ensures PassesThrough(g, reuse, k) {
        ReachingNodeIsOnChain(g, reuse, k);
      }
      NoReuseIsValid(g);
      RunCoupled(g, NoReuse(g), reuse, |g.nodes|);
      PassingAllocatesNothing(g, reuse, |g.nodes|);
      FinalOutput(g, reuse);
    } else {
      ReportedWithinEstimate(g, reuse);
    }
  }

  // ---------- A graph with a dead node ----------

  const ONE_BYTE: Representation := Representation(U8, Contiguous)

  const ONE_BYTE_FACTS: TensorFacts := TensorFacts([1], [1], [1], [1], ONE_BYTE, 1)

  const PASS: PlannedTransform := PlannedTransform(ImplementationId("provider", "identity", 1), ONE_BYTE, ONE_BYTE, 1, 0)

  /** A dead slice beside a preparation of the same one-byte input, which is the output. */
  const DEAD_NODE: Graph := Graph(
    [GraphInput("x", ONE_BYTE_FACTS)],
    [Node(BuiltinImplementation(Slice([AxisRange(0, 1)])), [Input(0)], Slice([AxisRange(0, 1)]), [ONE_BYTE_FACTS]),
     Node(PASS.implementation, [Input(0)], Prepare(PASS), [ONE_BYTE_FACTS])],
    NodeOutput(1, 0))

  lemma OneByteFactsAreContiguous()
    ensures ContiguousFacts([1], ONE_BYTE) == Ok(ONE_BYTE_FACTS)
    ensures ValidFacts(ONE_BYTE_FACTS) && ONE_BYTE_FACTS.Canonical()
  {
    assert [1][1..] == [] && Elements([]) == 1 && RowStrides([]) == [];
    assert RowStrides([1]) == [Elements([])] + RowStrides([]) == [1] && Elements([1]) == 1 * Elements([]);
    ContiguousFactsAccepted([1], ONE_BYTE);
    ContiguousFactsShape([1], ONE_BYTE);
    ValidFactsGuarantee(ContiguousFacts([1], ONE_BYTE).value);
  }

  lemma DeadNodeIsValid()
    ensures ValidGraph(DEAD_NODE) && Reuses(DEAD_NODE, [false, true])
  {
    hide NewFacts, ContiguousFacts;
    OneByteFactsAreContiguous();
    var g := DEAD_NODE;
    assert Elements([1]) == 1;
    CheckedElementsIsProduct([1]);
    forall k | 0 <= k < |g.nodes| ensures ValidNode(g.inputs, g.nodes[..k], g.nodes[k]) {
      assert [Input(0)][1..] == [] && ResolveFacts(g.inputs, g.nodes[..k], []) == Ok([]);
      assert FactsIn(g.inputs, g.nodes[..k], Input(0)) == Some(ONE_BYTE_FACTS);
      assert [ONE_BYTE_FACTS] + [] == [ONE_BYTE_FACTS];
      assert ResolveFacts(g.inputs, g.nodes[..k], [Input(0)]) == Ok([ONE_BYTE_FACTS]);
      assert RangeLengths([AxisRange(0, 1)]) == [1];
    }
  }

  ghost function DeadNodeStart(): Schedule {
    Schedule(map[Input(0) := 2, NodeOutput(1, 0) := 1], map[Input(0) := None], map[], 0, 0, 0)
  }

  /** After the dead slice its byte is freed, but it was counted in the peak. */
  ghost function DeadNodeMiddle(): Schedule {
    Schedule(map[Input(0) := 1, NodeOutput(1, 0) := 1], map[Input(0) := None], map[], 1, 0, 1)
  }

  lemma DeadNodeStarts()
    ensures Initial(DEAD_NODE) == Ok(DeadNodeStart())
  {
    var g := DEAD_NODE;
    assert Pending(g, 2) == multiset{NodeOutput(1, 0)};
    assert Pending(g, 1) == multiset{Input(0), NodeOutput(1, 0)};
    assert Pending(g, 0) == multiset{Input(0), Input(0), NodeOutput(1, 0)};
    assert Counts(Pending(g, 0)) == DeadNodeStart().uses;
    assert InputValues(1) == DeadNodeStart().values;
  }

  lemma DeadNodeSlices()
    ensures NodeStep(DeadNodeStart(), DEAD_NODE, 0, false) == Ok(DeadNodeMiddle())
  {
    var g, s, v := DEAD_NODE, DeadNodeStart(), NodeOutput(0, 0);
    var t := Schedule(s.uses, s.values[v := Some(0)], map[0 := Alloc(1, 1)], 1, 1, 1);
    assert s.allocations[0 := Alloc(1, 0)][0 := Alloc(1, 1)] == t.allocations;
    assert AddFresh(s, v, 1) == Ok(t);
    assert Produce(t, g, 0, false, 1) == Ok(t);
    assert Produce(s, g, 0, false, 0) == Ok(t);
    var u := t.(uses := DeadNodeMiddle().uses);
    assert t.uses[Input(0) := 1] == u.uses;
    assert ConsumeValue(t, Input(0)) == Ok((u, false)) && [Input(0)][1..] == [];
    assert ConsumeInputs(t, [Input(0)]) == Ok(u);
    assert OutputsOf(0, 1) == [v] && [v][1..] == [];
    assert u.values - {v} == DeadNodeMiddle().values && u.allocations - {0} == map[];
    assert RemoveValue(u, v) == Ok(DeadNodeMiddle());
    assert RemoveUnused(DeadNodeMiddle(), []) == Ok(DeadNodeMiddle());
    assert RemoveUnused(u, [v]) == Ok(DeadNodeMiddle());
    assert ObserveTransient(t, 0) == Ok(t);
  }

  /** The last node, with a fresh output or with a reused one. */
  lemma DeadNodePrepares(reused: bool)
    ensures NodeStep(DeadNodeMiddle(), DEAD_NODE, 1, reused)
            == Ok(Schedule(map[Input(0) := 0, NodeOutput(1, 0) := 1],
                           map[NodeOutput(1, 0) := if reused then None else Some(1)],
                           if reused then map[] else map[1 := Alloc(1, 1)],
                           if reused then 1 else 2, if reused then 0 else 1, 1))
  {
    var g, s, v := DEAD_NODE, DeadNodeMiddle(), NodeOutput(1, 0);
    var t := Schedule(s.uses, s.values[v := if reused then None else Some(1)], if reused then map[] else map[1 := Alloc(1, 1)],
                      if reused then 1 else 2, if reused then 0 else 1, 1);
    if reused {
      assert InsertValue(s, v, None) == Ok(t);
    } else {
      assert s.allocations[1 := Alloc(1, 0)][1 := Alloc(1, 1)] == t.allocations;
      assert AddFresh(s, v, 1) == Ok(t);
    }
    assert Produce(t, g, 1, reused, 1) == Ok(t);
    assert Produce(s, g, 1, reused, 0) == Ok(t);
    var u := t.(uses := map[Input(0) := 0, v := 1], values := map[v := if reused then None else Some(1)]);
    assert t.values - {Input(0)} == u.values && t.uses[Input(0) := 0] == u.uses;
    assert ConsumeValue(t, Input(0)) == Ok((u, true)) && [Input(0)][1..] == [];
    assert ConsumeInputs(t, [Input(0)]) == Ok(u);
    assert OutputsOf(1, 1) == [v] && [v][1..] == [];
    assert RemoveUnused(u, [v]) == Ok(u);
  }

  /** With a dead node the bound fails: the provider reuses its source, the returned bytes are
      no graph allocation, and the dead node's byte exceeds an estimate of zero. */
  lemma DeadNodeExceedsEstimate()
    ensures ValidGraph(DEAD_NODE) && Reuses(DEAD_NODE, [false, true])
    ensures Estimate(DEAD_NODE) == Ok(0) && Reported(DEAD_NODE, [false, true]) == Ok(1)
  {
    hide ValidGraph, NodeStep, Initial;
    DeadNodeIsValid();
    DeadNodeStarts();
    DeadNodeSlices();
    DeadNodePrepares(false);
    DeadNodePrepares(true);
    var g, mixed := DEAD_NODE, [false, true];
    assert Run(g, mixed, 1) == Ok(DeadNodeMiddle()) && Run(g, NoReuse(g), 1) == Ok(DeadNodeMiddle());
    assert Run(g, mixed, 2) == NodeStep(DeadNodeMiddle(), g, 1, true);
    assert Run(g, NoReuse(g), 2) == NodeStep(DeadNodeMiddle(), g, 1, false);
  }
}

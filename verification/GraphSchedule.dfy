/** The liveness schedule of a graph: one fold for the scratch estimate and for execution,
    which differ only in the provider preparations that reuse their source. */
module GraphSchedule {
  import opened Checked
  import opened Buffers
  import opened Facts
  import opened Operations
  import opened Graphs
  import opened Evaluation
  import opened Liveness

  // ---------- Uses ----------

  /** The uses still to come when node `k` starts: inputs of the nodes from `k` on, and the
      graph output. */
  function Pending(g: Graph, k: nat): multiset<ValueRef>
    requires k <= |g.nodes|
    decreases |g.nodes| - k
  {
    if k == |g.nodes| then multiset{g.output} else multiset(g.nodes[k].inputs) + Pending(g, k + 1)
  }

  lemma {:induction false} PendingShrinks(g: Graph, k: nat)
    requires k <= |g.nodes|
    ensures Pending(g, k) <= Pending(g, 0)
  {
    if k > 0 {
      PendingShrinks(g, k - 1);
      assert Pending(g, k - 1) == multiset(g.nodes[k - 1].inputs) + Pending(g, k);
    }
  }

  lemma {:induction false} OutputIsPending(g: Graph, k: nat)
    requires k <= |g.nodes|
    ensures g.output in Pending(g, k)
    decreases |g.nodes| - k
  {
    if k < |g.nodes| {
      OutputIsPending(g, k + 1);
    }
  }

  function Counts(uses: multiset<ValueRef>): map<ValueRef, nat> {
    map v | v in uses :: uses[v]
  }

  ghost predicate CountsFit(uses: multiset<ValueRef>) {
    forall v :: v in uses ==> uses[v] <= U64_MAX
  }

  function InputValues(n: nat): (m: map<ValueRef, Option<nat>>)
    ensures forall v :: v in m <==> v.Input? && v.input < n
    ensures forall v :: v in m ==> m[v] == None
  {
    if n == 0 then map[] else InputValues(n - 1)[Input(n - 1) := None]
  }

  ghost function Initial(g: Graph): Result<Schedule> {
    if CountsFit(Pending(g, 0))
    then Ok(Schedule(Counts(Pending(g, 0)), InputValues(|g.inputs|), map[], 0, 0, 0))
    else Err(ResourceLimit)
  }

  /** The counts of a multiset of uses, all of them in 64 bits. */
  ghost predicate Counted(counts: map<ValueRef, nat>, uses: multiset<ValueRef>) {
    CountsFit(uses) && counts == Counts(uses)
  }

  lemma CountOne(counts: map<ValueRef, nat>, uses: multiset<ValueRef>, v: ValueRef)
    requires Counted(counts, uses)
    ensures (if v in counts then counts[v] else 0) == uses[v]
    ensures if uses[v] < U64_MAX then Counted(counts[v := uses[v] + 1], uses + multiset{v})
            else !CountsFit(uses + multiset{v})
  {
    var more := uses + multiset{v};
    assert more[v] == uses[v] + 1 && v in more;
    forall w | w in more && w != v ensures w in uses && more[w] == uses[w] {
    }
  }

  /** The multiset of a list grows by one element at a time, below the whole. */
  lemma NextUse(before: multiset<ValueRef>, refs: seq<ValueRef>, i: nat)
    requires i < |refs|
    ensures before + multiset(refs[..i + 1]) == (before + multiset(refs[..i])) + multiset{refs[i]}
    ensures before + multiset(refs[..i + 1]) <= before + multiset(refs)
  {
    assert refs[..i + 1] == refs[..i] + [refs[i]];
    assert refs == refs[..i + 1] + refs[i + 1..];
  }

  /** Adds the uses of one list to the counts. */
  method CountUses(counts: map<ValueRef, nat>, refs: seq<ValueRef>, ghost before: multiset<ValueRef>)
    returns (r: Result<map<ValueRef, nat>>)
    requires Counted(counts, before)
    ensures r.Ok? <==> CountsFit(before + multiset(refs))
    ensures r.Ok? ==> Counted(r.value, before + multiset(refs))
    ensures r.Err? ==> r.error == ResourceLimit
  {
    hide Counted, CountsFit;
    assert before + multiset(refs[..0]) == before;
    var grown := counts;
    var i := 0;
    while i < |refs|
      invariant 0 <= i <= |refs|
      invariant Counted(grown, before + multiset(refs[..i]))
    {
      var v := refs[i];
      NextUse(before, refs, i);
      CountOne(grown, before + multiset(refs[..i]), v);
      var count := if v in grown then grown[v] else 0;
      if CheckedAdd(count, 1).Err? {
        NotBelow(before + multiset(refs[..i + 1]), before + multiset(refs));
        return Err(ResourceLimit);
      }
      grown := grown[v := count + 1];
      i := i + 1;
    }
    assert refs[..i] == refs;
    CountedFits(grown, before + multiset(refs));
    return Ok(grown);
  }

  lemma NotBelow(a: multiset<ValueRef>, b: multiset<ValueRef>)
    requires a <= b && !CountsFit(a)
    ensures !CountsFit(b)
  {
  }

  lemma CountedFits(counts: map<ValueRef, nat>, uses: multiset<ValueRef>)
    requires Counted(counts, uses)
    ensures CountsFit(uses)
  {
  }

  /** The schedule before the first node. */
  method NewSchedule(g: Graph) returns (r: Result<LivenessSchedule>)
    ensures Initial(g).Ok? ==> r.Ok? && fresh(r.value) && r.value.State() == Initial(g).value
    ensures Initial(g).Err? ==> r == Err(ResourceLimit)
  {
    hide CountsFit, Counts, Counted;
    var counts: map<ValueRef, nat> := map[];
    ghost var done: multiset<ValueRef> := multiset{};
    NothingCounted();
    var k := 0;
    while k < |g.nodes|
      invariant 0 <= k <= |g.nodes| && Counted(counts, done)
      invariant Pending(g, 0) == done + Pending(g, k)
    {
      assert Pending(g, k) == multiset(g.nodes[k].inputs) + Pending(g, k + 1);
      ghost var more := done + multiset(g.nodes[k].inputs);
      assert Pending(g, 0) == more + Pending(g, k + 1);
      var grown := CountUses(counts, g.nodes[k].inputs, done);
      if grown.Err? {
        NotBelow(more, Pending(g, 0));
        return Err(grown.error);
      }
      counts, done, k := grown.value, more, k + 1;
    }
    assert multiset([g.output]) == Pending(g, |g.nodes|);
    assert Pending(g, 0) == done + multiset([g.output]);
    counts :- CountUses(counts, [g.output], done);
    CountedIs(counts, Pending(g, 0));
    var values: map<ValueRef, Option<nat>> := map[];
    var i := 0;
    while i < |g.inputs|
      invariant 0 <= i <= |g.inputs| && values == InputValues(i)
    {
      values := values[Input(i) := None];
      i := i + 1;
    }
    var schedule := new LivenessSchedule(counts, values);
    return Ok(schedule);
  }

  lemma CountedIs(counts: map<ValueRef, nat>, uses: multiset<ValueRef>)
    requires Counted(counts, uses)
    ensures CountsFit(uses) && counts == Counts(uses)
  {
  }

  lemma NothingCounted()
    ensures Counted(map[], multiset{})
  {
  }

  // ---------- One node ----------

  /** Output `o` of node `k` takes over the allocation of the node's first input. */
  predicate SharesInput(g: Graph, k: nat, o: nat, reused: bool)
    requires k < |g.nodes|
  {
    AliasesInput(g, k, o) || (g.nodes[k].operation.Prepare? && reused && |g.nodes[k].inputs| == 1)
  }

  function Transient(g: Graph, k: nat, reused: bool): nat
    requires k < |g.nodes|
  {
    if g.nodes[k].operation.Prepare? && !reused then g.nodes[k].operation.transform.scratchBytes else 0
  }

  function Produce(s: Schedule, g: Graph, k: nat, reused: bool, o: nat): Result<Schedule>
    requires k < |g.nodes| && o <= |g.nodes[k].outputs|
    decreases |g.nodes[k].outputs| - o
  {
    var node := g.nodes[k];
    if o == |node.outputs| then Ok(s)
    else if SharesInput(g, k, o, reused) then
      if node.inputs[0] !in s.values then Err(Integrity)
      else
        var t :- InsertValue(s, NodeOutput(k, o), s.values[node.inputs[0]]);
        Produce(t, g, k, reused, o + 1)
    else
      var t :- AddFresh(s, NodeOutput(k, o), node.outputs[o].byteLen);
      Produce(t, g, k, reused, o + 1)
  }

  function Cleanup(s: Schedule, g: Graph, k: nat): Result<Schedule>
    requires k < |g.nodes|
  {
    var consumed :- ConsumeInputs(s, g.nodes[k].inputs);
    RemoveUnused(consumed, OutputsOf(k, |g.nodes[k].outputs|))
  }

  function NodeStep(s: Schedule, g: Graph, k: nat, reused: bool): Result<Schedule>
    requires k < |g.nodes|
  {
    var produced :- Produce(s, g, k, reused, 0);
    var observed :- ObserveTransient(produced, Transient(g, k, reused));
    Cleanup(observed, g, k)
  }

  /** The schedule before node `k`, when the preparations marked in `reuse` share their source. */
  ghost function Run(g: Graph, reuse: seq<bool>, k: nat): Result<Schedule>
    requires k <= |g.nodes| && k <= |reuse|
  {
    if k == 0 then Initial(g)
    else
      var s :- Run(g, reuse, k - 1);
      NodeStep(s, g, k - 1, reuse[k - 1])
  }

  function NoReuse(g: Graph): (r: seq<bool>)
    ensures |r| == |g.nodes|
  {
    seq(|g.nodes|, _ => false)
  }

  // ---------- Values that are live ----------

  /** Live values before node `k`: those with a pending use, and external inputs without any. */
  predicate IsLive(g: Graph, v: ValueRef, k: nat)
    requires k <= |g.nodes|
  {
    Available(g, v, k) && (v in Pending(g, k) || (v.Input? && v !in Pending(g, 0)))
  }

  ghost predicate UsesAre(s: Schedule, total: multiset<ValueRef>, pending: multiset<ValueRef>) {
    pending <= total
    && forall v :: (v in s.uses <==> v in total) && (v in total ==> s.uses[v] == pending[v])
  }

  ghost predicate Tracks(g: Graph, s: Schedule, k: nat)
    requires k <= |g.nodes|
  {
    UsesAre(s, Pending(g, 0), Pending(g, k)) && forall v :: v in s.values <==> IsLive(g, v, k)
  }

  /** The byte length of every value. */
  ghost function SizeOf(g: Graph): Liveness.Sizes {
    v => if Available(g, v, |g.nodes|) then FactsOf(g, v).byteLen else 0
  }

  /** Reuse is possible: a provider's source and output have the same length. */
  predicate CanReuse(g: Graph, k: nat, reused: bool)
    requires k < |g.nodes|
  {
    reused ==>
      g.nodes[k].operation.Prepare? && |g.nodes[k].inputs| == 1 && |g.nodes[k].outputs| == 1
      && FactsIn(g.inputs, g.nodes, g.nodes[k].inputs[0]).Some?
      && FactsIn(g.inputs, g.nodes, g.nodes[k].inputs[0]).value.byteLen == g.nodes[k].outputs[0].byteLen
  }

  predicate Reuses(g: Graph, reuse: seq<bool>) {
    |reuse| == |g.nodes| && forall k :: 0 <= k < |g.nodes| ==> CanReuse(g, k, reuse[k])
  }

  /** A shared output has a single input of its own size, and is the only output. */
  lemma SharedSize(g: Graph, k: nat, o: nat, reused: bool)
    requires ValidGraph(g) && k < |g.nodes| && o < |g.nodes[k].outputs| && CanReuse(g, k, reused)
    requires SharesInput(g, k, o, reused)
    ensures |g.nodes[k].inputs| == |g.nodes[k].outputs| == 1 && o == 0
    ensures Available(g, g.nodes[k].inputs[0], k)
    ensures SizeOf(g)(NodeOutput(k, o)) == SizeOf(g)(g.nodes[k].inputs[0])
  {
    hide ValidGraph, NewFacts, InferOutputs;
    NodeIsTyped(g, k);
    if AliasesInput(g, k, o) {
      AliasMeaning(g, k, Zeros(FactsOf(g, g.nodes[k].inputs[0]).byteLen), (t, s, b) => Err(Provider));
    }
  }

  // ---------- What each part of a node step does ----------

  /** The schedule without the values of a set. */
  ghost predicate Dropped(t: Schedule, s: Schedule, gone: set<ValueRef>) {
    t.values == s.values - gone && t.next == s.next && t.peak == s.peak
    && (forall a :: a in t.allocations ==> a in s.allocations && t.allocations[a].references <= s.allocations[a].references)
  }

  lemma NothingDropped(s: Schedule)
    ensures Dropped(s, s, {})
  {
    assert s.values - {} == s.values;
  }

  lemma DroppedTwice(s: Schedule, t: Schedule, u: Schedule, first: set<ValueRef>, second: set<ValueRef>)
    requires Dropped(t, s, first) && Dropped(u, t, second)
    ensures Dropped(u, s, first + second)
  {
    assert (s.values - first) - second == s.values - (first + second);
  }

  lemma UsesDoNotMatter(s: Schedule, t: Schedule, size: Liveness.Sizes)
    requires Accounted(s, size) && t == s.(uses := t.uses)
    ensures Accounted(t, size)
  {
  }

  lemma RemoveDrops(s: Schedule, v: ValueRef, size: Liveness.Sizes)
    requires Accounted(s, size) && v in s.values
    ensures var r := RemoveValue(s, v);
            r.Ok? && Accounted(r.value, size) && r.value.uses == s.uses && Dropped(r.value, s, {v})
  {
    RemoveIsAccounted(s, v, size);
  }

  lemma ConsumeOne(s: Schedule, v: ValueRef, total: multiset<ValueRef>, rest: multiset<ValueRef>, size: Liveness.Sizes)
    requires Accounted(s, size) && v in s.values && UsesAre(s, total, multiset{v} + rest)
    ensures var r := ConsumeValue(s, v);
            r.Ok? && Accounted(r.value.0, size) && UsesAre(r.value.0, total, rest) && (r.value.1 <==> v !in rest)
            && Dropped(r.value.0, s, if v in rest then {} else {v})
  {
    hide Accounted, RemoveValue, Dropped;
    assert s.uses[v] == rest[v] + 1;
    var t := s.(uses := s.uses[v := s.uses[v] - 1]);
    UsesDoNotMatter(s, t, size);
    UseRecorded(s, t, v);
    if v !in rest {
      RemoveDrops(t, v, size);
      DroppedTwice(s, t, RemoveValue(t, v).value, {}, {v});
      assert {} + {v} == {v};
    }
  }

  lemma UseRecorded(s: Schedule, t: Schedule, v: ValueRef)
    requires t == s.(uses := t.uses)
    ensures Dropped(t, s, {})
  {
    NothingDropped(s);
  }

  /** The listed values without a use in `rest`. */
  ghost function LastUsed(refs: seq<ValueRef>, rest: multiset<ValueRef>): set<ValueRef> {
    set v | v in refs && v !in rest
  }

  /** Consuming the inputs of a node never fails, and removes exactly those without a use left. */
  lemma {:induction false} ConsumeRemovesLast(s: Schedule, refs: seq<ValueRef>, total: multiset<ValueRef>,
                                              rest: multiset<ValueRef>, size: Liveness.Sizes)
    requires Accounted(s, size) && (forall v :: v in refs ==> v in s.values)
    requires UsesAre(s, total, multiset(refs) + rest)
    ensures var r := ConsumeInputs(s, refs);
            r.Ok? && Accounted(r.value, size) && UsesAre(r.value, total, rest)
            && Dropped(r.value, s, LastUsed(refs, rest))
    decreases |refs|
  {
    hide ConsumeValue, Accounted, Dropped, UsesAre;
    if refs == [] {
      assert multiset(refs) + rest == rest && LastUsed(refs, rest) == {};
      NothingDropped(s);
    } else {
      var v, tail := refs[0], refs[1..];
      assert refs == [v] + tail;
      var later := multiset(tail) + rest;
      assert multiset(refs) + rest == multiset{v} + later;
      ConsumeOne(s, v, total, later, size);
      var t, first := ConsumeValue(s, v).value.0, if v in later then {} else {v};
      forall w | w in tail ensures w in t.values {
        DroppedKeeps(t, s, first, w);
      }
      ConsumeRemovesLast(t, tail, total, rest, size);
      DroppedTwice(s, t, ConsumeInputs(t, tail).value, first, LastUsed(tail, rest));
      assert first + LastUsed(tail, rest) == LastUsed(refs, rest);
    }
  }

  lemma DroppedKeeps(t: Schedule, s: Schedule, gone: set<ValueRef>, w: ValueRef)
    requires Dropped(t, s, gone) && w in s.values && w !in gone
    ensures w in t.values
  {
  }

  /** The listed values without a remaining use. */
  ghost function Unused(s: Schedule, refs: seq<ValueRef>): set<ValueRef> {
    set v | v in refs && RemainingUses(s, v) == 0
  }

  /** Cleaning up the outputs of a node never fails, and removes exactly the unused ones. */
  lemma {:induction false} RemoveUnusedRemoves(s: Schedule, refs: seq<ValueRef>, size: Liveness.Sizes)
    requires Accounted(s, size) && (forall v :: v in refs ==> v in s.values)
    requires forall i, j :: 0 <= i < j < |refs| ==> refs[i] != refs[j]
    ensures var r := RemoveUnused(s, refs);
            r.Ok? && Accounted(r.value, size) && r.value.uses == s.uses && Dropped(r.value, s, Unused(s, refs))
    decreases |refs|
  {
    hide RemoveValue, Accounted, Dropped;
    if refs == [] {
      assert Unused(s, refs) == {};
      NothingDropped(s);
    } else {
      var v, tail := refs[0], refs[1..];
      assert refs == [v] + tail;
      if RemainingUses(s, v) == 0 {
        RemoveDrops(s, v, size);
        var t := RemoveValue(s, v).value;
        forall w | w in tail ensures w in t.values {
          DroppedKeeps(t, s, {v}, w);
        }
        RemoveUnusedRemoves(t, tail, size);
        DroppedTwice(s, t, RemoveUnused(t, tail).value, {v}, Unused(t, tail));
        assert {v} + Unused(t, tail) == Unused(s, refs);
      } else {
        RemoveUnusedRemoves(s, tail, size);
        assert Unused(s, tail) == Unused(s, refs);
      }
    }
  }

  /** The outputs of node `k` from `o` on are not live yet. */
  ghost predicate NotProduced(s: Schedule, k: nat, o: nat) {
    forall j :: j >= o ==> NodeOutput(k, j) !in s.values
  }

  /** The values added by node `k` from output `o` on. */
  ghost predicate Added(t: Schedule, s: Schedule, g: Graph, k: nat, o: nat)
    requires k < |g.nodes|
  {
    (forall v :: v in t.values <==> v in s.values || (v.NodeOutput? && v.node == k && o <= v.output < |g.nodes[k].outputs|))
    && (forall v :: v in s.values ==> t.values[v] == s.values[v])
    && t.uses == s.uses && s.next <= t.next && s.peak <= t.peak
  }

  /** Producing the outputs of a node only fails on a 64-bit limit. */
  lemma {:induction false} ProduceAdds(s: Schedule, g: Graph, k: nat, reused: bool, o: nat)
    requires ValidGraph(g) && k < |g.nodes| && o <= |g.nodes[k].outputs| && CanReuse(g, k, reused)
    requires Accounted(s, SizeOf(g)) && NotProduced(s, k, o)
    requires forall i :: 0 <= i < |g.nodes[k].inputs| ==> g.nodes[k].inputs[i] in s.values
    ensures var r := Produce(s, g, k, reused, o);
            (r.Err? ==> r == Err(ResourceLimit))
            && (r.Ok? ==> Accounted(r.value, SizeOf(g)) && Added(r.value, s, g, k, o))
    decreases |g.nodes[k].outputs| - o
  {
    hide ValidGraph, Accounted, InsertValue, AddFresh, SharesInput, CanReuse;
    if o < |g.nodes[k].outputs| {
      var v := NodeOutput(k, o);
      if SharesInput(g, k, o, reused) {
        SharedSize(g, k, o, reused);
        AliasIsAccounted(s, v, g.nodes[k].inputs[0], SizeOf(g));
        var t := InsertValue(s, v, s.values[g.nodes[k].inputs[0]]);
        if t.Ok? {
          ProduceAdds(t.value, g, k, reused, o + 1);
        }
      } else {
        FreshIsAccounted(s, v, SizeOf(g));
        var t := AddFresh(s, v, g.nodes[k].outputs[o].byteLen);
        if t.Ok? {
          ProduceAdds(t.value, g, k, reused, o + 1);
        }
      }
    }
  }

  /** Inputs of a node are live when it starts, and its outputs are not. */
  lemma NodeInputsLive(g: Graph, s: Schedule, k: nat)
    requires ValidGraph(g) && k < |g.nodes| && Tracks(g, s, k)
    ensures forall i :: 0 <= i < |g.nodes[k].inputs| ==> g.nodes[k].inputs[i] in s.values
    ensures NotProduced(s, k, 0)
  {
    hide ValidGraph;
    NodeIsTyped(g, k);
    assert Pending(g, k) == multiset(g.nodes[k].inputs) + Pending(g, k + 1);
    forall i | 0 <= i < |g.nodes[k].inputs| ensures g.nodes[k].inputs[i] in s.values {
      assert g.nodes[k].inputs[i] in multiset(g.nodes[k].inputs);
      assert IsLive(g, g.nodes[k].inputs[i], k);
    }
  }

  /** One node keeps the accounting and the set of live values; it only fails on a 64-bit
      limit, never on an internal inconsistency. */
  lemma NodeStepTracks(g: Graph, s: Schedule, k: nat, reused: bool)
    requires ValidGraph(g) && k < |g.nodes| && CanReuse(g, k, reused)
    requires Accounted(s, SizeOf(g)) && Tracks(g, s, k)
    ensures var r := NodeStep(s, g, k, reused);
            (r.Err? ==> r == Err(ResourceLimit)) && (r.Ok? ==> Accounted(r.value, SizeOf(g)) && Tracks(g, r.value, k + 1))
  {
    hide ValidGraph, Accounted, Produce, Cleanup, CanReuse, SizeOf, Tracks;
    NodeInputsLive(g, s, k);
    ProduceAdds(s, g, k, reused, 0);
    if Produce(s, g, k, reused, 0).Ok? {
      var produced := Produce(s, g, k, reused, 0).value;
      var observed := ObserveTransient(produced, Transient(g, k, reused));
      if observed.Ok? {
        TransientIsAccounted(produced, Transient(g, k, reused), SizeOf(g));
        CleanupTracks(g, s, k, observed.value);
      }
    }
  }

  /** The values a node leaves behind: last uses of its inputs, and outputs nobody uses. */
  ghost function Discarded(g: Graph, k: nat): set<ValueRef>
    requires k < |g.nodes|
  {
    set v | v in g.nodes[k].inputs + OutputsOf(k, |g.nodes[k].outputs|) && v !in Pending(g, k + 1)
  }

  lemma UsesCarried(t: Schedule, s: Schedule, g: Graph, k: nat)
    requires k < |g.nodes| && Tracks(g, s, k) && Added(t, s, g, k, 0)
    ensures UsesAre(t, Pending(g, 0), Pending(g, k))
  {
  }

  lemma InputsCarried(t: Schedule, s: Schedule, g: Graph, k: nat)
    requires k < |g.nodes| && Added(t, s, g, k, 0)
    requires forall i :: 0 <= i < |g.nodes[k].inputs| ==> g.nodes[k].inputs[i] in s.values
    ensures forall v :: v in g.nodes[k].inputs || v in OutputsOf(k, |g.nodes[k].outputs|) ==> v in t.values
  {
  }

  lemma NotLastUsed(refs: seq<ValueRef>, rest: multiset<ValueRef>, v: ValueRef)
    requires v !in refs
    ensures v !in LastUsed(refs, rest)
  {
  }

  /** Consuming the inputs and removing unused outputs never fails. */
  lemma CleanupDrops(g: Graph, s: Schedule, k: nat, t: Schedule)
    requires ValidGraph(g) && k < |g.nodes| && Tracks(g, s, k) && Accounted(t, SizeOf(g)) && Added(t, s, g, k, 0)
    ensures Cleanup(t, g, k).Ok?
    ensures var u := Cleanup(t, g, k).value;
            Accounted(u, SizeOf(g)) && UsesAre(u, Pending(g, 0), Pending(g, k + 1)) && Dropped(u, t, Discarded(g, k))
  {
    hide ValidGraph, Accounted, ConsumeInputs, RemoveUnused, SizeOf, Dropped, Discarded, LastUsed, Unused;
    NodeIsTyped(g, k);
    NodeInputsLive(g, s, k);
    PendingShrinks(g, k + 1);
    var inputs, outputs := g.nodes[k].inputs, OutputsOf(k, |g.nodes[k].outputs|);
    assert Pending(g, k) == multiset(inputs) + Pending(g, k + 1);
    UsesCarried(t, s, g, k);
    InputsCarried(t, s, g, k);
    hide Pending, IsLive, Tracks, UsesAre, Added;
    ConsumeRemovesLast(t, inputs, Pending(g, 0), Pending(g, k + 1), SizeOf(g));
    var consumed, last := ConsumeInputs(t, inputs).value, LastUsed(inputs, Pending(g, k + 1));
    forall v | v in outputs ensures v in consumed.values {
      NotAnInput(g, k, v);
      NotLastUsed(inputs, Pending(g, k + 1), v);
      DroppedKeeps(consumed, t, last, v);
    }
    RemoveUnusedRemoves(consumed, outputs, SizeOf(g));
    var u := RemoveUnused(consumed, outputs).value;
    DroppedTwice(t, consumed, u, last, Unused(consumed, outputs));
    DiscardedParts(g, k, consumed);
  }

  lemma DiscardedParts(g: Graph, k: nat, consumed: Schedule)
    requires k < |g.nodes| && UsesAre(consumed, Pending(g, 0), Pending(g, k + 1))
    ensures Discarded(g, k) == LastUsed(g.nodes[k].inputs, Pending(g, k + 1))
                               + Unused(consumed, OutputsOf(k, |g.nodes[k].outputs|))
  {
    hide UsesAre, Pending;
    forall v ensures RemainingUses(consumed, v) == Pending(g, k + 1)[v] {
      RemainingIs(consumed, Pending(g, 0), Pending(g, k + 1), v);
    }
  }

  /** What remains is exactly what is live before the next node. */
  lemma LiveAfter(g: Graph, s: Schedule, k: nat, t: Schedule, v: ValueRef)
    requires ValidGraph(g) && k < |g.nodes| && Tracks(g, s, k) && Added(t, s, g, k, 0)
    ensures v in t.values - Discarded(g, k) <==> IsLive(g, v, k + 1)
  {
    hide ValidGraph, UsesAre;
    NodeIsTyped(g, k);
    PendingShrinks(g, k);
    PendingShrinks(g, k + 1);
    var inputs := g.nodes[k].inputs;
    assert Pending(g, k) == multiset(inputs) + Pending(g, k + 1);
    assert v in inputs <==> v in multiset(inputs);
    if v.NodeOutput? && v.node == k && v.output < |g.nodes[k].outputs| {
      assert OutputsOf(k, |g.nodes[k].outputs|)[v.output] == v;
    } else {
      assert v !in OutputsOf(k, |g.nodes[k].outputs|);
    }
  }

  lemma CleanupTracks(g: Graph, s: Schedule, k: nat, t: Schedule)
    requires ValidGraph(g) && k < |g.nodes| && Tracks(g, s, k) && Accounted(t, SizeOf(g)) && Added(t, s, g, k, 0)
    ensures Cleanup(t, g, k).Ok?
    ensures Accounted(Cleanup(t, g, k).value, SizeOf(g)) && Tracks(g, Cleanup(t, g, k).value, k + 1)
    ensures Dropped(Cleanup(t, g, k).value, t, Discarded(g, k))
  {
    hide ValidGraph, Accounted, Cleanup, SizeOf, IsLive, Discarded, UsesAre, Added;
    CleanupDrops(g, s, k, t);
    var u := Cleanup(t, g, k).value;
    forall v ensures v in u.values <==> IsLive(g, v, k + 1) {
      LiveAfter(g, s, k, t, v);
    }
  }

  lemma RemainingIs(s: Schedule, total: multiset<ValueRef>, pending: multiset<ValueRef>, v: ValueRef)
    requires UsesAre(s, total, pending)
    ensures RemainingUses(s, v) == pending[v]
  {
  }

  lemma NotAnInput(g: Graph, k: nat, v: ValueRef)
    requires k < |g.nodes| && AllAvailable(g, g.nodes[k].inputs, k) && v.NodeOutput? && v.node == k
    ensures v !in g.nodes[k].inputs
  {
    forall j | 0 <= j < |g.nodes[k].inputs| ensures g.nodes[k].inputs[j] != v {
      assert Available(g, g.nodes[k].inputs[j], k);
    }
  }

  lemma InitialTracks(g: Graph)
    requires Initial(g).Ok?
    ensures Accounted(Initial(g).value, SizeOf(g)) && Tracks(g, Initial(g).value, 0)
  {
  }

  /** In every run of a valid graph live bytes are the sum of live allocations, references
      count live values and values with remaining uses are live; and the only error is a
      64-bit limit. */
  lemma {:induction false} RunTracks(g: Graph, reuse: seq<bool>, k: nat)
    requires ValidGraph(g) && Reuses(g, reuse) && k <= |g.nodes|
    ensures var r := Run(g, reuse, k);
            (r.Err? ==> r == Err(ResourceLimit)) && (r.Ok? ==> Accounted(r.value, SizeOf(g)) && Tracks(g, r.value, k))
  {
    hide ValidGraph, Accounted, NodeStep, CanReuse, Tracks;
    if k == 0 {
      if Initial(g).Ok? {
        InitialTracks(g);
      }
    } else {
      RunTracks(g, reuse, k - 1);
      if Run(g, reuse, k - 1).Ok? {
        NodeStepTracks(g, Run(g, reuse, k - 1).value, k - 1, reuse[k - 1]);
      }
    }
  }
}

/** What a run needs, read off the graph: at each node the bytes of the buffers that some value
    still to be used lies in, and the scratch of a provider that does not reuse its source.  The
    reported scratch and the static estimate are the greatest of these needs. */
module ScratchDemand {
  import opened Checked
  import opened Facts
  import opened Operations
  import opened Graphs
  import opened Evaluation
  import opened Liveness
  import opened GraphSchedule
  import opened Scratch

  // ---------- The need of one node ----------

  /** Output `o` of node `n` is the node's single input under other facts. */
  predicate Borrows(g: Graph, reuse: seq<bool>, n: nat, o: nat)
    requires n < |g.nodes| && |reuse| == |g.nodes|
  {
    var node := g.nodes[n];
    o == 0 && |node.inputs| == 1 && |node.outputs| == 1
    && match node.operation
       case Reshape(_) => true
       case Permute(order, _) =>
         (forall k :: 0 <= k < |order| ==> order[k] == k) && FactsIn(g.inputs, g.nodes, node.inputs[0]) == Some(node.outputs[0])
       case Prepare(_) => reuse[n]
       case _ => false
  }

  /** The value whose buffer a value lies in: an external input, or the output of the node that
      made the buffer. */
  function Owner(g: Graph, reuse: seq<bool>, v: ValueRef): ValueRef
    requires ValidGraph(g) && |reuse| == |g.nodes| && Available(g, v, |g.nodes|)
    decreases Rank(v)
  {
    match v
    case Input(_) => v
    case NodeOutput(n, o) =>
      NodeIsTyped(g, n);
      if Borrows(g, reuse, n, o) then Owner(g, reuse, g.nodes[n].inputs[0]) else v
  }

  /** The graph output, or an input of node `k` or of a later one. */
  predicate Needed(g: Graph, v: ValueRef, k: nat) {
    v == g.output || exists j, i :: k <= j < |g.nodes| && 0 <= i < |g.nodes[j].inputs| && g.nodes[j].inputs[i] == v
  }

  /** The value exists while node `k` runs: its output, or an earlier value that is still needed. */
  predicate HeldDuring(g: Graph, v: ValueRef, k: nat)
    requires k < |g.nodes|
  {
    (v.NodeOutput? && v.node == k && v.output < |g.nodes[k].outputs|) || (Available(g, v, k) && Needed(g, v, k))
  }

  ghost predicate OwnsDuring(g: Graph, reuse: seq<bool>, w: ValueRef, k: nat)
    requires ValidGraph(g) && |reuse| == |g.nodes| && k < |g.nodes|
  {
    exists v :: HeldDuring(g, v, k) && Available(g, v, |g.nodes|) && Owner(g, reuse, v) == w
  }

  /** The node outputs in whose buffers the held values lie. */
  ghost function BuffersDuring(g: Graph, reuse: seq<bool>, k: nat): set<ValueRef>
    requires ValidGraph(g) && |reuse| == |g.nodes| && k < |g.nodes|
  {
    set n: nat, o: nat | n < |g.nodes| && o < |g.nodes[n].outputs| && OwnsDuring(g, reuse, NodeOutput(n, o), k) :: NodeOutput(n, o)
  }

  ghost function SumOver(s: set<ValueRef>, size: Sizes): nat
    decreases |s|
  {
    if s == {} then 0
    else
      var x :| x in s;
      size(x) + SumOver(s - {x}, size)
  }

  /** Buffers held while node `k` runs, and the scratch its provider declares when it does not
      hand its source back. */
  ghost function Demand(g: Graph, reuse: seq<bool>, k: nat): nat
    requires ValidGraph(g) && |reuse| == |g.nodes| && k < |g.nodes|
  {
    SumOver(BuffersDuring(g, reuse, k), SizeOf(g))
    + if g.nodes[k].operation.Prepare? && !reuse[k] then g.nodes[k].operation.transform.scratchBytes else 0
  }

  /** The greatest need among the first `k` nodes. */
  ghost function GreatestDemand(g: Graph, reuse: seq<bool>, k: nat): nat
    requires ValidGraph(g) && |reuse| == |g.nodes| && k <= |g.nodes|
  {
    if k == 0 then 0 else Max(GreatestDemand(g, reuse, k - 1), Demand(g, reuse, k - 1))
  }

  /** The bytes of the returned buffer that the graph itself allocated. */
  ghost function ReturnedBuffer(g: Graph, reuse: seq<bool>): nat
    requires ValidGraph(g) && |reuse| == |g.nodes| && Available(g, g.output, |g.nodes|)
  {
    if Owner(g, reuse, g.output).Input? then 0 else FactsOf(g, g.output).byteLen
  }

  // ---------- Sums ----------

  lemma {:induction false} SumRemove(s: set<ValueRef>, x: ValueRef, size: Sizes)
    requires x in s
    ensures SumOver(s, size) == size(x) + SumOver(s - {x}, size)
    decreases |s|
  {
    var y :| y in s && SumOver(s, size) == size(y) + SumOver(s - {y}, size);
    if x != y {
      SumRemove(s - {y}, x, size);
      SumRemove(s - {x}, y, size);
      assert s - {y} - {x} == s - {x} - {y};
    }
  }

  /** `f` takes the allocations numbered below `n` to buffers of the same sizes, each to its own. */
  ghost predicate Into(a: map<nat, Alloc>, n: nat, s: set<ValueRef>, f: map<nat, ValueRef>, size: Sizes) {
    (forall i :: i in a && i < n ==> i in f && f[i] in s && size(f[i]) == a[i].bytes)
    && forall i, j :: i in a && j in a && i < n && j < n && i != j ==> f[i] != f[j]
  }

  /** Every buffer has the allocation `h` gives it. */
  ghost predicate Onto(a: map<nat, Alloc>, n: nat, s: set<ValueRef>, f: map<nat, ValueRef>, h: map<ValueRef, nat>) {
    forall x :: x in s ==> x in h && h[x] in a && h[x] < n && h[x] in f && f[h[x]] == x
  }

  lemma IntoRest(a: map<nat, Alloc>, n: nat, s: set<ValueRef>, f: map<nat, ValueRef>, size: Sizes)
    requires n > 0 && Into(a, n, s, f, size)
    ensures n - 1 in a ==> n - 1 in f && f[n - 1] in s && size(f[n - 1]) == a[n - 1].bytes && Into(a, n - 1, s - {f[n - 1]}, f, size)
    ensures n - 1 !in a ==> Into(a, n - 1, s, f, size)
  {
  }

  lemma OntoRest(a: map<nat, Alloc>, n: nat, s: set<ValueRef>, f: map<nat, ValueRef>, h: map<ValueRef, nat>)
    requires n > 0 && Onto(a, n, s, f, h) && (n - 1 in a ==> n - 1 in f)
    ensures n - 1 in a ==> Onto(a, n - 1, s - {f[n - 1]}, f, h)
    ensures n - 1 !in a ==> Onto(a, n - 1, s, f, h)
  {
  }

  /** Allocations that go into buffers one by one are no more bytes than those. */
  lemma {:induction false} TotalIsWithin(a: map<nat, Alloc>, n: nat, s: set<ValueRef>, f: map<nat, ValueRef>, size: Sizes)
    requires Into(a, n, s, f, size)
    ensures TotalBelow(a, n) <= SumOver(s, size)
  {
    hide Into, SumOver;
    if n > 0 {
      IntoRest(a, n, s, f, size);
      if n - 1 in a {
        SumRemove(s, f[n - 1], size);
        TotalIsWithin(a, n - 1, s - {f[n - 1]}, f, size);
      } else {
        TotalIsWithin(a, n - 1, s, f, size);
      }
    }
  }

  /** A one-to-one correspondence between allocations and buffers of the same sizes. */
  lemma {:induction false} TotalIsSum(a: map<nat, Alloc>, n: nat, s: set<ValueRef>, f: map<nat, ValueRef>, h: map<ValueRef, nat>,
                                      size: Sizes)
    requires Into(a, n, s, f, size) && Onto(a, n, s, f, h)
    ensures TotalBelow(a, n) == SumOver(s, size)
  {
    if n == 0 {
      assert s == {};
    } else {
      IntoRest(a, n, s, f, size);
      assert n - 1 in a ==> n - 1 in f;
      OntoRest(a, n, s, f, h);
      hide Into, Onto, SumOver;
      if n - 1 in a {
        SumRemove(s, f[n - 1], size);
        TotalIsSum(a, n - 1, s - {f[n - 1]}, f, h, size);
      } else {
        TotalIsSum(a, n - 1, s, f, h, size);
      }
    }
  }

  // ---------- Owners and allocations ----------

  lemma BorrowsIsSharing(g: Graph, reuse: seq<bool>, n: nat, o: nat)
    requires Reuses(g, reuse) && n < |g.nodes| && o < |g.nodes[n].outputs|
    ensures Borrows(g, reuse, n, o) <==> SharesInput(g, n, o, reuse[n])
  {
    assert CanReuse(g, n, reuse[n]);
  }

  lemma {:induction false} OwnerFacts(g: Graph, reuse: seq<bool>, v: ValueRef)
    requires ValidGraph(g) && Reuses(g, reuse) && Available(g, v, |g.nodes|)
    ensures var w := Owner(g, reuse, v);
            Available(g, w, |g.nodes|) && SizeOf(g)(w) == SizeOf(g)(v) && (w == v || (v.NodeOutput? && Available(g, w, v.node)))
    decreases Rank(v)
  {
    hide ValidGraph, CanReuse, Borrows, SharesInput;
    if v.NodeOutput? {
      NodeIsTyped(g, v.node);
      BorrowsIsSharing(g, reuse, v.node, v.output);
      if Borrows(g, reuse, v.node, v.output) {
        SharedSize(g, v.node, v.output, reuse[v.node]);
        OwnerFacts(g, reuse, g.nodes[v.node].inputs[0]);
      }
    }
  }

  /** Values share an allocation exactly when they lie in the same buffer. */
  ghost predicate Owned(g: Graph, reuse: seq<bool>, s: Schedule)
    requires ValidGraph(g) && |reuse| == |g.nodes|
  {
    (forall v :: v in s.values ==> Available(g, v, |g.nodes|) && (s.values[v].None? <==> Owner(g, reuse, v).Input?))
    && (forall v, w :: v in s.values && w in s.values && s.values[v].Some? ==>
          Available(g, v, |g.nodes|) && Available(g, w, |g.nodes|)
          && (s.values[v] == s.values[w] <==> Owner(g, reuse, v) == Owner(g, reuse, w)))
  }

  lemma InsertOwned(g: Graph, reuse: seq<bool>, s: Schedule, t: Schedule, v: ValueRef, u: ValueRef)
    requires ValidGraph(g) && |reuse| == |g.nodes| && Owned(g, reuse, s) && u in s.values && v !in s.values
    requires t.values == s.values[v := s.values[u]]
    requires Available(g, v, |g.nodes|) && Available(g, u, |g.nodes|) && Owner(g, reuse, v) == Owner(g, reuse, u)
    ensures Owned(g, reuse, t)
  {
    hide ValidGraph, Owner;
  }

  lemma FreshOwned(g: Graph, reuse: seq<bool>, s: Schedule, t: Schedule, v: ValueRef)
    requires ValidGraph(g) && |reuse| == |g.nodes| && Owned(g, reuse, s) && v !in s.values
    requires t.values == s.values[v := Some(s.next)] && forall w :: w in s.values ==> s.values[w] != Some(s.next)
    requires Available(g, v, |g.nodes|) && v.NodeOutput? && Owner(g, reuse, v) == v
    requires forall w :: w in s.values ==> Available(g, w, |g.nodes|) && Owner(g, reuse, w) != v
    ensures Owned(g, reuse, t)
  {
    hide ValidGraph, Owner;
  }

  lemma DropOwned(g: Graph, reuse: seq<bool>, s: Schedule, t: Schedule, gone: set<ValueRef>)
    requires ValidGraph(g) && |reuse| == |g.nodes| && Owned(g, reuse, s) && t.values == s.values - gone
    ensures Owned(g, reuse, t)
  {
    hide ValidGraph, Owner;
  }

  /** Values that exist before output `o` of node `k`. */
  ghost predicate Earlier(g: Graph, s: Schedule, k: nat, o: nat)
    requires k < |g.nodes|
  {
    forall v :: v in s.values ==> Available(g, v, k) || (v.NodeOutput? && v.node == k && v.output < o <= |g.nodes[k].outputs|)
  }

  lemma EarlierOwner(g: Graph, reuse: seq<bool>, s: Schedule, k: nat, o: nat)
    requires ValidGraph(g) && Reuses(g, reuse) && k < |g.nodes| && o < |g.nodes[k].outputs| && Earlier(g, s, k, o)
    ensures NodeOutput(k, o) !in s.values
    ensures forall w :: w in s.values ==> Available(g, w, |g.nodes|) && Owner(g, reuse, w) != NodeOutput(k, o)
  {
    hide ValidGraph, CanReuse, Owner;
    forall w | w in s.values
      ensures Available(g, w, |g.nodes|) && Owner(g, reuse, w) != NodeOutput(k, o)
    {
      OwnerFacts(g, reuse, w);
    }
  }

  /** Producing the outputs of a node keeps owners and allocations together, never lowers the live
      bytes, and raises the peak to them. */
  lemma {:induction false} ProduceOwned(g: Graph, reuse: seq<bool>, s: Schedule, k: nat, o: nat)
    requires ValidGraph(g) && Reuses(g, reuse) && k < |g.nodes| && o <= |g.nodes[k].outputs|
    requires Accounted(s, SizeOf(g)) && Owned(g, reuse, s) && Earlier(g, s, k, o)
    requires Produce(s, g, k, reuse[k], o).Ok?
    ensures var t := Produce(s, g, k, reuse[k], o).value;
            Owned(g, reuse, t) && s.live <= t.live && t.peak == Max(s.peak, t.live)
    decreases |g.nodes[k].outputs| - o
  {
    hide ValidGraph, Accounted, InsertValue, AddFresh, SharesInput, CanReuse, Owned, Owner, Borrows, Earlier;
    LiveIsBelowPeak(s, g);
    if o < |g.nodes[k].outputs| {
      var v := NodeOutput(k, o);
      EarlierOwner(g, reuse, s, k, o);
      BorrowsIsSharing(g, reuse, k, o);
      NodeIsTyped(g, k);
      if SharesInput(g, k, o, reuse[k]) {
        SharedSize(g, k, o, reuse[k]);
        var u := g.nodes[k].inputs[0];
        AliasIsAccounted(s, v, u, SizeOf(g));
        var t := InsertValue(s, v, s.values[u]).value;
        BorrowedOwner(g, reuse, k, o);
        InsertOwned(g, reuse, s, t, v, u);
        NextEarlier(g, s, t, k, o, s.values[u]);
        ProduceOwned(g, reuse, t, k, o + 1);
      } else {
        FreshIsAccounted(s, v, SizeOf(g));
        SizeOfOutput(g, k, o);
        var t := AddFresh(s, v, g.nodes[k].outputs[o].byteLen).value;
        forall w | w in s.values ensures s.values[w] != Some(s.next) {
          FreshNumberIsNew(s, SizeOf(g), w);
        }
        MadeOwner(g, reuse, k, o);
        FreshOwned(g, reuse, s, t, v);
        NextEarlier(g, s, t, k, o, Some(s.next));
        ProduceOwned(g, reuse, t, k, o + 1);
      }
    }
  }

  lemma BorrowedOwner(g: Graph, reuse: seq<bool>, k: nat, o: nat)
    requires ValidGraph(g) && |reuse| == |g.nodes| && k < |g.nodes| && o < |g.nodes[k].outputs| && Borrows(g, reuse, k, o)
    ensures |g.nodes[k].inputs| == 1 && Available(g, g.nodes[k].inputs[0], |g.nodes|)
    ensures Owner(g, reuse, NodeOutput(k, o)) == Owner(g, reuse, g.nodes[k].inputs[0])
  {
    hide ValidGraph;
    NodeIsTyped(g, k);
  }

  lemma MadeOwner(g: Graph, reuse: seq<bool>, k: nat, o: nat)
    requires ValidGraph(g) && |reuse| == |g.nodes| && k < |g.nodes| && o < |g.nodes[k].outputs| && !Borrows(g, reuse, k, o)
    ensures Owner(g, reuse, NodeOutput(k, o)) == NodeOutput(k, o)
  {
    hide ValidGraph;
    NodeIsTyped(g, k);
  }

  lemma NextEarlier(g: Graph, s: Schedule, t: Schedule, k: nat, o: nat, a: Option<nat>)
    requires k < |g.nodes| && o < |g.nodes[k].outputs| && Earlier(g, s, k, o)
    requires t.values == s.values[NodeOutput(k, o) := a]
    ensures Earlier(g, t, k, o + 1)
  {
  }

  // ---------- One node ----------

  lemma {:induction false} PendingIsNeeded(g: Graph, v: ValueRef, k: nat)
    requires k <= |g.nodes|
    ensures v in Pending(g, k) <==> Needed(g, v, k)
    decreases |g.nodes| - k
  {
    if k < |g.nodes| {
      PendingIsNeeded(g, v, k + 1);
      if v in multiset(g.nodes[k].inputs) {
        var i :| 0 <= i < |g.nodes[k].inputs| && g.nodes[k].inputs[i] == v;
      }
      if Needed(g, v, k) && v != g.output {
        var j, i :| k <= j < |g.nodes| && 0 <= i < |g.nodes[j].inputs| && g.nodes[j].inputs[i] == v;
        if j == k {
          assert v in multiset(g.nodes[k].inputs);
        }
      }
    }
  }

  /** After the outputs of node `k` are made, the values that lie in a buffer are the held ones. */
  lemma ProducedIsHeld(g: Graph, reuse: seq<bool>, s: Schedule, t: Schedule, k: nat, v: ValueRef)
    requires ValidGraph(g) && |reuse| == |g.nodes| && k < |g.nodes| && Tracks(g, s, k) && Added(t, s, g, k, 0)
    requires Owned(g, reuse, t)
    ensures HeldDuring(g, v, k) ==> v in t.values
    ensures v in t.values && t.values[v].Some? ==> HeldDuring(g, v, k)
  {
    hide ValidGraph, Needed;
    PendingIsNeeded(g, v, k);
    assert v in s.values <==> IsLive(g, v, k);
  }

  ghost predicate AfterProduction(g: Graph, reuse: seq<bool>, s: Schedule, t: Schedule, k: nat)
    requires ValidGraph(g) && k < |g.nodes|
  {
    Reuses(g, reuse) && Tracks(g, s, k) && Added(t, s, g, k, 0) && Owned(g, reuse, t) && Accounted(t, SizeOf(g))
  }

  lemma AllocationIsBuffer(g: Graph, reuse: seq<bool>, s: Schedule, t: Schedule, k: nat, a: nat)
    requires ValidGraph(g) && k < |g.nodes| && AfterProduction(g, reuse, s, t, k) && a in t.allocations
    ensures var v := Holder(t, a, SizeOf(g));
            Available(g, v, |g.nodes|) && Owner(g, reuse, v) in BuffersDuring(g, reuse, k)
            && SizeOf(g)(Owner(g, reuse, v)) == t.allocations[a].bytes
  {
    hide ValidGraph, CanReuse, Tracks, Added, SizeOf, HeldDuring, Owner;
    var v := Holder(t, a, SizeOf(g));
    ProducedIsHeld(g, reuse, s, t, k, v);
    OwnerFacts(g, reuse, v);
    assert OwnsDuring(g, reuse, Owner(g, reuse, v), k);
  }

  lemma BufferHasAllocation(g: Graph, reuse: seq<bool>, s: Schedule, t: Schedule, k: nat, w: ValueRef) returns (a: nat)
    requires ValidGraph(g) && k < |g.nodes| && AfterProduction(g, reuse, s, t, k) && w in BuffersDuring(g, reuse, k)
    ensures a in t.allocations && a < t.next
    ensures var v := Holder(t, a, SizeOf(g)); Available(g, v, |g.nodes|) && Owner(g, reuse, v) == w
  {
    hide ValidGraph, CanReuse, Tracks, Added, SizeOf, HeldDuring, Owner, Holders;
    var v :| HeldDuring(g, v, k) && Available(g, v, |g.nodes|) && Owner(g, reuse, v) == w;
    ProducedIsHeld(g, reuse, s, t, k, v);
    a := t.values[v].value;
    assert t.values[Holder(t, a, SizeOf(g))] == t.values[v];
  }

  /** The live bytes are those of the buffers held during the node. */
  lemma LiveIsBuffers(g: Graph, reuse: seq<bool>, s: Schedule, t: Schedule, k: nat)
    requires ValidGraph(g) && k < |g.nodes| && AfterProduction(g, reuse, s, t, k)
    ensures t.live == SumOver(BuffersDuring(g, reuse, k), SizeOf(g))
  {
    hide ValidGraph, CanReuse, Tracks, Added, SizeOf, BuffersDuring, Owner, Holders;
    var size, buffers := SizeOf(g), BuffersDuring(g, reuse, k);
    forall a | a in t.allocations ensures Available(g, Holder(t, a, size), |g.nodes|) {
      AllocationIsBuffer(g, reuse, s, t, k, a);
    }
    var f := map a | a in t.allocations :: Owner(g, reuse, Holder(t, a, size));
    forall a | a in t.allocations ensures f[a] in buffers && size(f[a]) == t.allocations[a].bytes {
      AllocationIsBuffer(g, reuse, s, t, k, a);
    }
    forall a, b | a in t.allocations && b in t.allocations && a != b ensures f[a] != f[b] {
      assert t.values[Holder(t, a, size)] != t.values[Holder(t, b, size)];
    }
    forall w | w in buffers ensures exists a :: a in t.allocations && a < t.next && f[a] == w {
      var a := BufferHasAllocation(g, reuse, s, t, k, w);
      assert f[a] == w;
    }
    var h := map w | w in buffers :: (var a :| a in t.allocations && a < t.next && f[a] == w; a);
    TotalIsSum(t.allocations, t.next, buffers, f, h, size);
  }

  lemma StartsEarlier(g: Graph, s: Schedule, k: nat)
    requires k < |g.nodes| && Tracks(g, s, k)
    ensures Earlier(g, s, k, 0)
  {
    forall v | v in s.values ensures Available(g, v, k) {
      assert IsLive(g, v, k);
    }
  }

  /** One node keeps owners and allocations together and raises the peak to its need. */
  lemma NodeStepDemands(g: Graph, reuse: seq<bool>, s: Schedule, k: nat)
    requires ValidGraph(g) && Reuses(g, reuse) && k < |g.nodes|
    requires Accounted(s, SizeOf(g)) && Tracks(g, s, k) && Owned(g, reuse, s)
    requires NodeStep(s, g, k, reuse[k]).Ok?
    ensures var t := NodeStep(s, g, k, reuse[k]).value;
            Owned(g, reuse, t) && t.peak == Max(s.peak, Demand(g, reuse, k)) && Demand(g, reuse, k) <= U64_MAX
  {
    hide ValidGraph, CanReuse, Accounted, Tracks, Owned, Produce, Cleanup, SizeOf, BuffersDuring, SumOver;
    NodeInputsLive(g, s, k);
    StartsEarlier(g, s, k);
    ProduceAdds(s, g, k, reuse[k], 0);
    ProduceOwned(g, reuse, s, k, 0);
    var produced := Produce(s, g, k, reuse[k], 0).value;
    LiveIsBuffers(g, reuse, s, produced, k);
    var scratch := Transient(g, k, reuse[k]);
    var t := ObserveTransient(produced, scratch).value;
    ObserveAdds(s, produced, g, k, scratch);
    CleanupTracks(g, s, k, t);
    DropOwned(g, reuse, produced, Cleanup(t, g, k).value, Discarded(g, k));
  }

  lemma InitialOwned(g: Graph, reuse: seq<bool>)
    requires ValidGraph(g) && |reuse| == |g.nodes| && Initial(g).Ok?
    ensures Owned(g, reuse, Initial(g).value)
  {
    hide ValidGraph;
  }

  /** The peak of a run is the greatest need of its nodes. */
  lemma {:induction false} RunDemands(g: Graph, reuse: seq<bool>, k: nat)
    requires ValidGraph(g) && Reuses(g, reuse) && k <= |g.nodes| && Run(g, reuse, k).Ok?
    ensures var s := Run(g, reuse, k).value;
            Owned(g, reuse, s) && s.peak == GreatestDemand(g, reuse, k) && s.peak <= U64_MAX
  {
    hide ValidGraph, CanReuse, Accounted, Tracks, Owned, NodeStep, SizeOf, Demand;
    if k == 0 {
      InitialOwned(g, reuse);
    } else {
      RunDemands(g, reuse, k - 1);
      RunTracks(g, reuse, k - 1);
      NodeStepDemands(g, reuse, Run(g, reuse, k - 1).value, k - 1);
    }
  }

  // ---------- The whole run ----------

  /** What a run reports: the greatest need of its nodes, less the returned buffer when the graph
      allocated it. */
  lemma ReportedIsDemand(g: Graph, reuse: seq<bool>)
    requires ValidGraph(g) && Reuses(g, reuse) && Reported(g, reuse).Ok?
    ensures Available(g, g.output, |g.nodes|)
    ensures GreatestDemand(g, reuse, |g.nodes|) >= ReturnedBuffer(g, reuse)
    ensures Reported(g, reuse).value == GreatestDemand(g, reuse, |g.nodes|) - ReturnedBuffer(g, reuse)
  {
    hide ValidGraph, CanReuse, Run, Owner, GreatestDemand;
    OutputIsAvailable(g);
    RunDemands(g, reuse, |g.nodes|);
    FinalOutput(g, reuse);
  }

  /** The estimate is the same for a run in which no provider hands its source back. */
  lemma EstimateIsDemand(g: Graph)
    requires ValidGraph(g) && Estimate(g).Ok?
    ensures Available(g, g.output, |g.nodes|)
    ensures GreatestDemand(g, NoReuse(g), |g.nodes|) >= ReturnedBuffer(g, NoReuse(g))
    ensures Estimate(g).value == GreatestDemand(g, NoReuse(g), |g.nodes|) - ReturnedBuffer(g, NoReuse(g))
  {
    hide ValidGraph, CanReuse, Run, GreatestDemand, ReturnedBuffer;
    NoReuseIsValid(g);
    ReportedIsDemand(g, NoReuse(g));
  }

  lemma {:induction false} DemandIsBelowGreatest(g: Graph, reuse: seq<bool>, k: nat, n: nat)
    requires ValidGraph(g) && |reuse| == |g.nodes| && k < n <= |g.nodes|
    ensures Demand(g, reuse, k) <= GreatestDemand(g, reuse, n)
  {
    hide ValidGraph, Demand;
    if k < n - 1 {
      DemandIsBelowGreatest(g, reuse, k, n - 1);
    }
  }

  /** The unconditional bound, node by node: whatever the providers hand back, buffers and transient
      scratch stay within the estimate and the output length. */
  lemma DemandWithinEstimateAndOutput(g: Graph, reuse: seq<bool>, k: nat)
    requires ValidGraph(g) && Reuses(g, reuse) && Estimate(g).Ok? && k < |g.nodes|
    ensures Available(g, g.output, |g.nodes|)
    ensures Demand(g, reuse, k) <= Estimate(g).value + FactsOf(g, g.output).byteLen
  {
    hide ValidGraph, CanReuse, Run, Demand, GreatestDemand;
    PeakWithinEstimateAndOutput(g, reuse);
    RunDemands(g, reuse, |g.nodes|);
    DemandIsBelowGreatest(g, reuse, k, |g.nodes|);
  }

  /** More reuse never needs more. */
  lemma ReuseNeedsLess(g: Graph, reuse: seq<bool>)
    requires ValidGraph(g) && Reuses(g, reuse) && Estimate(g).Ok?
    ensures GreatestDemand(g, reuse, |g.nodes|) <= GreatestDemand(g, NoReuse(g), |g.nodes|)
  {
    hide ValidGraph, CanReuse, Run, GreatestDemand, Coupled;
    NoReuseIsValid(g);
    RunCoupled(g, NoReuse(g), reuse, |g.nodes|);
    CoupledKeys(Run(g, NoReuse(g), |g.nodes|).value, Run(g, reuse, |g.nodes|).value, g.output);
    RunDemands(g, NoReuse(g), |g.nodes|);
    RunDemands(g, reuse, |g.nodes|);
  }

  // ---------- When a run is defined ----------

  /** Every buffer of the schedule is one of those held during node `k`, other than `v`. */
  lemma LiveBeside(g: Graph, reuse: seq<bool>, s: Schedule, k: nat, v: ValueRef)
    requires ValidGraph(g) && Reuses(g, reuse) && k < |g.nodes| && Accounted(s, SizeOf(g)) && Owned(g, reuse, s)
    requires forall w :: w in s.values && s.values[w].Some? ==> HeldDuring(g, w, k)
    requires forall w :: w in s.values ==> Available(g, w, |g.nodes|) && Owner(g, reuse, w) != v
    requires v in BuffersDuring(g, reuse, k)
    ensures s.live + SizeOf(g)(v) <= SumOver(BuffersDuring(g, reuse, k), SizeOf(g))
  {
    hide ValidGraph, CanReuse, SizeOf, Owner, Holders, HeldDuring;
    var size, buffers := SizeOf(g), BuffersDuring(g, reuse, k);
    var f := map a | a in s.allocations :: Owner(g, reuse, Holder(s, a, size));
    forall a | a in s.allocations
      ensures f[a] in buffers - {v} && size(f[a]) == s.allocations[a].bytes
    {
      var w := Holder(s, a, size);
      OwnerFacts(g, reuse, w);
      assert OwnsDuring(g, reuse, f[a], k);
    }
    forall a, b | a in s.allocations && b in s.allocations && a != b ensures f[a] != f[b] {
      assert s.values[Holder(s, a, size)] != s.values[Holder(s, b, size)];
    }
    SumRemove(buffers, v, size);
    TotalIsWithin(s.allocations, s.next, buffers - {v}, f, size);
  }

  lemma FreshKeepsBelow(s: Schedule, v: ValueRef, bytes: nat, n: nat)
    requires ReferencesBelow(s, n) && n > 0 && AddFresh(s, v, bytes).Ok?
    ensures ReferencesBelow(AddFresh(s, v, bytes).value, n)
  {
  }

  lemma FreshIsDefined(g: Graph, reuse: seq<bool>, s: Schedule, k: nat, o: nat)
    requires ValidGraph(g) && Reuses(g, reuse) && k < |g.nodes| && o < |g.nodes[k].outputs| && !Borrows(g, reuse, k, o)
    requires Accounted(s, SizeOf(g)) && Owned(g, reuse, s) && Earlier(g, s, k, o)
    requires forall w :: w in s.values && s.values[w].Some? ==> HeldDuring(g, w, k)
    requires SumOver(BuffersDuring(g, reuse, k), SizeOf(g)) <= U64_MAX
    requires s.next + 1 <= U64_MAX && ReferencesBelow(s, k + 1)
    ensures AddFresh(s, NodeOutput(k, o), g.nodes[k].outputs[o].byteLen).Ok?
    ensures var t := AddFresh(s, NodeOutput(k, o), g.nodes[k].outputs[o].byteLen).value;
            t.values == s.values[NodeOutput(k, o) := Some(s.next)] && t.next == s.next + 1
            && Accounted(t, SizeOf(g)) && Owned(g, reuse, t) && ReferencesBelow(t, k + 1) && HeldDuring(g, NodeOutput(k, o), k)
  {
    hide ValidGraph, Accounted, AddFresh, CanReuse, Owned, Owner, Borrows, Earlier, BuffersDuring, SizeOf, SumOver, ReferencesBelow;
    var v := NodeOutput(k, o);
    EarlierOwner(g, reuse, s, k, o);
    SizeOfOutput(g, k, o);
    MadeOwner(g, reuse, k, o);
    MadeIsBuffer(g, reuse, k, o);
    LiveBeside(g, reuse, s, k, v);
    FreshIsAccounted(s, v, SizeOf(g));
    FreshKeepsBelow(s, v, g.nodes[k].outputs[o].byteLen, k + 1);
    forall w | w in s.values ensures s.values[w] != Some(s.next) {
      FreshNumberIsNew(s, SizeOf(g), w);
    }
    FreshOwned(g, reuse, s, AddFresh(s, v, g.nodes[k].outputs[o].byteLen).value, v);
  }

  /** The buffers that fit together can be made one after the other. */
  lemma {:induction false} ProduceIsDefined(g: Graph, reuse: seq<bool>, s: Schedule, k: nat, o: nat)
    requires ValidGraph(g) && Reuses(g, reuse) && k < |g.nodes| && o <= |g.nodes[k].outputs| && k <= U32_MAX
    requires Accounted(s, SizeOf(g)) && Owned(g, reuse, s) && Earlier(g, s, k, o)
    requires forall w :: w in s.values && s.values[w].Some? ==> HeldDuring(g, w, k)
    requires forall i :: 0 <= i < |g.nodes[k].inputs| ==> g.nodes[k].inputs[i] in s.values
    requires SumOver(BuffersDuring(g, reuse, k), SizeOf(g)) <= U64_MAX
    requires s.next + (|g.nodes[k].outputs| - o) <= U64_MAX && ReferencesBelow(s, k + 1)
    ensures Produce(s, g, k, reuse[k], o).Ok?
    ensures var t := Produce(s, g, k, reuse[k], o).value;
            t.next <= s.next + (|g.nodes[k].outputs| - o) && ReferencesBelow(t, k + 2)
    decreases |g.nodes[k].outputs| - o
  {
    hide ValidGraph, Accounted, InsertValue, AddFresh, SharesInput, CanReuse, Owned, Owner, Borrows, Earlier, BuffersDuring, SizeOf;
    hide SumOver, ReferencesBelow;
    if o == |g.nodes[k].outputs| {
      BelowMore(s, k + 1);
    } else {
      var v := NodeOutput(k, o);
      EarlierOwner(g, reuse, s, k, o);
      BorrowsIsSharing(g, reuse, k, o);
      NodeIsTyped(g, k);
      SizeOfOutput(g, k, o);
      if SharesInput(g, k, o, reuse[k]) {
        SharedSize(g, k, o, reuse[k]);
        var u := g.nodes[k].inputs[0];
        ShareAdds(s, v, u, SizeOf(g), k);
        AliasIsAccounted(s, v, u, SizeOf(g));
      } else {
        FreshIsDefined(g, reuse, s, k, o);
        var t := AddFresh(s, v, g.nodes[k].outputs[o].byteLen).value;
        NextEarlier(g, s, t, k, o, Some(s.next));
        ProduceIsDefined(g, reuse, t, k, o + 1);
      }
    }
  }

  lemma BelowMore(s: Schedule, n: nat)
    requires ReferencesBelow(s, n)
    ensures ReferencesBelow(s, n + 1)
  {
  }

  lemma MadeIsBuffer(g: Graph, reuse: seq<bool>, k: nat, o: nat)
    requires ValidGraph(g) && |reuse| == |g.nodes| && k < |g.nodes| && o < |g.nodes[k].outputs|
    requires Owner(g, reuse, NodeOutput(k, o)) == NodeOutput(k, o)
    ensures NodeOutput(k, o) in BuffersDuring(g, reuse, k)
  {
    hide ValidGraph, Owner;
    assert HeldDuring(g, NodeOutput(k, o), k);
    assert OwnsDuring(g, reuse, NodeOutput(k, o), k);
  }

  lemma LiveIsHeld(g: Graph, reuse: seq<bool>, s: Schedule, k: nat)
    requires ValidGraph(g) && |reuse| == |g.nodes| && k < |g.nodes| && Tracks(g, s, k) && Owned(g, reuse, s)
    ensures forall w :: w in s.values && s.values[w].Some? ==> HeldDuring(g, w, k)
  {
    hide ValidGraph, Needed;
    forall w | w in s.values && s.values[w].Some? ensures HeldDuring(g, w, k) {
      PendingIsNeeded(g, w, k);
      assert IsLive(g, w, k);
    }
  }

  lemma DroppedBelow(t: Schedule, s: Schedule, gone: set<ValueRef>, n: nat)
    requires Dropped(t, s, gone) && ReferencesBelow(s, n)
    ensures ReferencesBelow(t, n) && t.next == s.next
  {
  }

  /** A node whose need fits can be run. */
  lemma NodeStepIsDefined(g: Graph, reuse: seq<bool>, s: Schedule, k: nat)
    requires ValidGraph(g) && Reuses(g, reuse) && k < |g.nodes| && k <= U32_MAX
    requires Accounted(s, SizeOf(g)) && Tracks(g, s, k) && Owned(g, reuse, s)
    requires Demand(g, reuse, k) <= U64_MAX && s.next + |g.nodes[k].outputs| <= U64_MAX && ReferencesBelow(s, k + 1)
    ensures NodeStep(s, g, k, reuse[k]).Ok?
    ensures var t := NodeStep(s, g, k, reuse[k]).value;
            t.next <= s.next + |g.nodes[k].outputs| && ReferencesBelow(t, k + 2)
  {
    hide ValidGraph, CanReuse, Accounted, Tracks, Owned, Produce, Cleanup, SizeOf, BuffersDuring, SumOver, ReferencesBelow, Dropped;
    NodeInputsLive(g, s, k);
    StartsEarlier(g, s, k);
    LiveIsHeld(g, reuse, s, k);
    ProduceIsDefined(g, reuse, s, k, 0);
    ProduceAdds(s, g, k, reuse[k], 0);
    ProduceOwned(g, reuse, s, k, 0);
    var produced := Produce(s, g, k, reuse[k], 0).value;
    LiveIsBuffers(g, reuse, s, produced, k);
    var scratch := Transient(g, k, reuse[k]);
    var t := ObserveTransient(produced, scratch).value;
    ObserveAdds(s, produced, g, k, scratch);
    SameBelow(produced, t, k + 2);
    CleanupTracks(g, s, k, t);
    DroppedBelow(Cleanup(t, g, k).value, t, Discarded(g, k), k + 2);
  }

  lemma SameBelow(s: Schedule, t: Schedule, n: nat)
    requires ReferencesBelow(s, n) && t.allocations == s.allocations
    ensures ReferencesBelow(t, n)
  {
  }

  lemma NodeLimit(g: Graph, k: nat)
    requires ValidGraph(g) && k < |g.nodes|
    ensures k <= U32_MAX && |g.nodes[k].outputs| <= U32_MAX && (k + 1) * U32_MAX <= U64_MAX
    ensures k * U32_MAX + |g.nodes[k].outputs| <= (k + 1) * U32_MAX
  {
    hide NewFacts, InferOutputs, ValidInputs;
    NodeIsTyped(g, k);
  }

  lemma {:induction false} RunIsDefined(g: Graph, reuse: seq<bool>, k: nat)
    requires ValidGraph(g) && Reuses(g, reuse) && k <= |g.nodes|
    requires CountsFit(Pending(g, 0)) && GreatestDemand(g, reuse, k) <= U64_MAX
    ensures Run(g, reuse, k).Ok?
    ensures Run(g, reuse, k).value.next <= k * U32_MAX && ReferencesBelow(Run(g, reuse, k).value, k + 1)
  {
    hide ValidGraph, CanReuse, Accounted, Tracks, Owned, NodeStep, SizeOf, Demand, CountsFit;
    if k > 0 {
      RunIsDefined(g, reuse, k - 1);
      RunDemands(g, reuse, k - 1);
      RunTracks(g, reuse, k - 1);
      NodeLimit(g, k - 1);
      NodeStepIsDefined(g, reuse, Run(g, reuse, k - 1).value, k - 1);
    }
  }

  /** The report of a run is defined exactly when its greatest need fits in 64 bits and no value is
      used more often than 64 bits can count. */
  lemma ReportedIsDefinedExactly(g: Graph, reuse: seq<bool>)
    requires ValidGraph(g) && Reuses(g, reuse)
    ensures Reported(g, reuse).Ok? <==> CountsFit(Pending(g, 0)) && GreatestDemand(g, reuse, |g.nodes|) <= U64_MAX
    ensures Reported(g, reuse).Err? ==> Reported(g, reuse) == Err(ResourceLimit)
  {
    hide ValidGraph, CanReuse, GreatestDemand, CountsFit;
    RunTracks(g, reuse, |g.nodes|);
    if Run(g, reuse, |g.nodes|).Ok? {
      FinalOutput(g, reuse);
      RunDemands(g, reuse, |g.nodes|);
      RunNeedsCounts(g, reuse, |g.nodes|);
    }
    if CountsFit(Pending(g, 0)) && GreatestDemand(g, reuse, |g.nodes|) <= U64_MAX {
      RunIsDefined(g, reuse, |g.nodes|);
    }
  }

  lemma {:induction false} RunNeedsCounts(g: Graph, reuse: seq<bool>, k: nat)
    requires k <= |g.nodes| && k <= |reuse| && Run(g, reuse, k).Ok?
    ensures CountsFit(Pending(g, 0))
  {
    hide NodeStep;
    if k > 0 {
      RunNeedsCounts(g, reuse, k - 1);
    }
  }
}

/** The identity of one overlay target: what it is computed from, and nothing else. */
module OverlayIdentity {
  import opened Checked
  import opened Aliases
  import opened Hashing
  import opened Overlay
  import opened OverlayPlans

  // ----- the source digests an operation references -----

  function FileOrdinals(s: SourceTensor): seq<nat> {
    [s.payload] + s.companions
  }

  function AllOrdinals(sources: seq<SourceTensor>): seq<nat> {
    if sources == [] then []
    else AllOrdinals(sources[..|sources| - 1]) + FileOrdinals(sources[|sources| - 1])
  }

  /** Inserts an ordinal into an ascending duplicate-free list. */
  function InsertOrdinal(x: nat, s: seq<nat>): seq<nat> {
    if s == [] || x < s[0] then [x] + s
    else if x == s[0] then s
    else [s[0]] + InsertOrdinal(x, s[1..])
  }

  /** The ordinals in ascending order without repetitions. */
  function Deduplicated(s: seq<nat>): seq<nat> {
    if s == [] then [] else InsertOrdinal(s[0], Deduplicated(s[1..]))
  }

  predicate Ascending(s: seq<nat>) {
    forall i, j :: 0 <= i < j < |s| ==> s[i] < s[j]
  }

  lemma {:induction false} InsertOrdinalKeeps(x: nat, s: seq<nat>)
    requires Ascending(s)
    ensures Ascending(InsertOrdinal(x, s))
    ensures forall y :: y in InsertOrdinal(x, s) <==> y == x || y in s
  {
    if s != [] && x > s[0] {
      InsertOrdinalKeeps(x, s[1..]);
      var t := InsertOrdinal(x, s[1..]);
      forall i, j | 0 <= i < j < |t| + 1
        ensures ([s[0]] + t)[i] < ([s[0]] + t)[j]
      {
        assert t[j - 1] in t;
      }
    }
  }

  /** Sorting and removing repetitions gives an ascending list of the same ordinals. */
  lemma {:induction false} DeduplicatedIsAscending(s: seq<nat>)
    ensures Ascending(Deduplicated(s)) && forall y :: y in Deduplicated(s) <==> y in s
  {
    if s != [] {
      DeduplicatedIsAscending(s[1..]);
      InsertOrdinalKeeps(s[0], Deduplicated(s[1..]));
    }
  }

  function References(operation: Operation): seq<nat> {
    Deduplicated(AllOrdinals(operation.Sources()))
  }

  predicate Covered(ordinals: seq<nat>, digests: seq<Digest>) {
    forall i :: 0 <= i < |ordinals| ==> ordinals[i] < |digests|
  }

  datatype SourceDigest = SourceDigest(ordinal: nat, content: Digest)

  function DigestsAt(ordinals: seq<nat>, digests: seq<Digest>): (ds: seq<SourceDigest>)
    requires Covered(ordinals, digests)
    ensures |ds| == |ordinals|
    ensures forall i :: 0 <= i < |ds| ==> ds[i] == SourceDigest(ordinals[i], digests[ordinals[i]])
  {
    if ordinals == [] then []
    else
      var n := |ordinals| - 1;
      DigestsAt(ordinals[..n], digests) + [SourceDigest(ordinals[n], digests[ordinals[n]])]
  }

  /** The layer constructor's guarantee: every referenced ordinal has a digest. */
  ghost predicate ValidLayer(layer: Layer) {
    forall i :: 0 <= i < |layer.operations| ==> Covered(References(layer.operations[i]), layer.sourceDigests)
  }

  /** Adds the ordinals of one storage to the list. */
  method ExtendOrdinals(source: SourceTensor, ordinals: seq<nat>) returns (r: seq<nat>)
    ensures r == ordinals + FileOrdinals(source)
  {
    r := ordinals + [source.payload];
    var k := 0;
    while k < |source.companions|
      invariant 0 <= k <= |source.companions|
      invariant r == ordinals + [source.payload] + source.companions[..k]
    {
      r := r + [source.companions[k]];
      k := k + 1;
    }
  }

  method CollectOrdinals(sources: seq<SourceTensor>) returns (ordinals: seq<nat>)
    ensures ordinals == AllOrdinals(sources)
  {
    ordinals := [];
    var k := 0;
    while k < |sources|
      invariant 0 <= k <= |sources|
      invariant ordinals == AllOrdinals(sources[..k])
    {
      ordinals := ExtendOrdinals(sources[k], ordinals);
      assert sources[..k + 1][..k] == sources[..k];
      k := k + 1;
    }
    assert sources[..k] == sources;
  }

  method ReferencedSourceDigests(layer: Layer, operation: Operation) returns (r: Result<seq<SourceDigest>>)
    ensures Covered(References(operation), layer.sourceDigests) ==>
              r == Ok(DigestsAt(References(operation), layer.sourceDigests))
    ensures !Covered(References(operation), layer.sourceDigests) ==> r == Err(Integrity)
  {
    var ordinals := CollectOrdinals(operation.Sources());
    var sorted := Deduplicated(ordinals);
    var digests: seq<SourceDigest> := [];
    var k := 0;
    while k < |sorted|
      invariant 0 <= k <= |sorted| && sorted == References(operation)
      invariant Covered(sorted[..k], layer.sourceDigests)
      invariant digests == DigestsAt(sorted[..k], layer.sourceDigests)
    {
      if sorted[k] >= |layer.sourceDigests| {
        return Err(Integrity);
      }
      assert sorted[..k + 1][..k] == sorted[..k];
      digests := digests + [SourceDigest(sorted[k], layer.sourceDigests[sorted[k]])];
      k := k + 1;
    }
    assert sorted[..k] == sorted;
    return Ok(digests);
  }

  // ----- the target identity -----

  datatype OperationIdentity = OperationIdentity(operation: Operation, sources: seq<SourceDigest>)

  datatype TargetIdentity = TargetIdentity(mode: CompositionMode, policy: ConflictPolicy, base: BaseTensor,
                                           operations: seq<OperationIdentity>)

  ghost predicate ValidPlace(p: Place) {
    Exists(p) && Covered(References(OperationAt(p)), p.layer.sourceDigests)
  }

  ghost predicate ValidPlaces(ps: seq<Place>) {
    forall i :: 0 <= i < |ps| ==> ValidPlace(ps[i])
  }

  ghost function IdentityAt(p: Place): OperationIdentity
    requires ValidPlace(p)
  {
    OperationIdentity(OperationAt(p), DigestsAt(References(OperationAt(p)), p.layer.sourceDigests))
  }

  ghost predicate IdentitiesAre(ids: seq<OperationIdentity>, ps: seq<Place>) {
    |ids| == |ps| && ValidPlaces(ps) && forall i :: 0 <= i < |ps| ==> ids[i] == IdentityAt(ps[i])
  }

  /** A plan as its constructors leave it. */
  ghost predicate ValidPlan(plan: Plan) {
    Built(plan) && forall l :: 0 <= l < |plan.layers| ==> ValidLayer(plan.layers[l])
  }

  predicate FromLayers(ps: seq<Place>, layers: seq<Layer>) {
    forall i :: 0 <= i < |ps| ==> ps[i].layer in layers
  }

  lemma {:induction false} SelectedAreValid(ps: seq<Place>, layers: seq<Layer>, g: Graph, name: Name)
    requires AllExist(ps) && FromLayers(ps, layers)
    requires forall l :: 0 <= l < |layers| ==> ValidLayer(layers[l])
    ensures ValidPlaces(Select(ps, g, name))
    ensures FromLayers(Select(ps, g, name), layers)
  {
    if ps != [] {
      hide Targets, Covered, References;
      SelectedAreValid(ps[..|ps| - 1], layers, g, name);
      var last := ps[|ps| - 1];
      assert ValidLayer(last.layer);
    }
  }

  lemma {:induction false} AllPlacesInLayers(layers: seq<Layer>)
    ensures FromLayers(AllPlaces(layers), layers)
  {
    if layers != [] {
      var n := |layers| - 1;
      AllPlacesInLayers(layers[..n]);
      forall i | 0 <= i < |AllPlaces(layers)|
        ensures AllPlaces(layers)[i].layer in layers
      {
        if i < |AllPlaces(layers[..n])| {
          assert AllPlaces(layers[..n])[i].layer in layers[..n];
        } else {
          assert AllPlaces(layers)[i].layer == layers[n];
        }
      }
    }
  }

  lemma CollectedAreValid(plan: Plan, name: Name)
    requires ValidPlan(plan)
    ensures var ps := Collected(plan.layers, plan.aliases, name);
            ValidPlaces(ps) && FromLayers(ps, plan.layers)
  {
    hide AllPlaces, Select;
    AllPlacesInLayers(plan.layers);
    SelectedAreValid(AllPlaces(plan.layers), plan.layers, plan.aliases, name);
  }

  ghost predicate Indexed(m: map<nat, Layer>, layers: seq<Layer>) {
    forall layer :: layer in layers ==> layer.id in m && m[layer.id] == layer
  }

  method IndexLayers(layers: seq<Layer>) returns (m: map<nat, Layer>)
    requires DistinctIds(layers)
    ensures Indexed(m, layers)
  {
    m := map[];
    var k := 0;
    while k < |layers|
      invariant 0 <= k <= |layers|
      invariant forall i :: 0 <= i < k ==> layers[i].id in m && m[layers[i].id] == layers[i]
    {
      m := m[layers[k].id := layers[k]];
      k := k + 1;
    }
  }

  /** The identity of one target of a valid plan.  Every lookup succeeds; the only error is a
      target that does not resolve to a base. */
  method TargetPayload(plan: Plan, target: Name) returns (r: Result<TargetIdentity>)
    requires ValidPlan(plan)
    ensures IndexOf(plan.bases, Resolved(plan.aliases, target)).None? ==> r == Err(Binding)
    ensures IndexOf(plan.bases, Resolved(plan.aliases, target)).Some? ==> r.Ok? && Identifies(plan, target, r.value)
  {
    hide Resolved, Acyclic, Select, AllPlaces, IndexOf, References, Covered, Buildable, Indexed;
    assert Acyclic(plan.aliases) && DistinctIds(plan.layers) by { BuiltGuarantees(plan); }
    var canonical := Resolve(plan.aliases, target);
    var found := IndexOf(plan.bases, canonical);
    if found.None? {
      return Err(Binding);
    }
    var b := found.value;
    var layers := IndexLayers(plan.layers);
    ghost var ps := Collected(plan.layers, plan.aliases, canonical);
    var refs := plan.bindings[b].operations;
    CollectedAreValid(plan, canonical);
    var operations: seq<OperationIdentity> := [];
    var k := 0;
    while k < |refs|
      invariant 0 <= k <= |refs| && |operations| == k
      invariant forall i :: 0 <= i < k ==> operations[i] == IdentityAt(ps[i])
    {
      FoundLayer(layers, plan.layers, ps[k]);
      if refs[k].layer !in layers {
        return Err(Integrity);
      }
      var layer := layers[refs[k].layer];
      if refs[k].index >= |layer.operations| {
        return Err(Integrity);
      }
      var operation := layer.operations[refs[k].index];
      var sources :- ReferencedSourceDigests(layer, operation);
      operations := operations + [OperationIdentity(operation, sources)];
      k := k + 1;
    }
    return Ok(TargetIdentity(plan.mode, plan.policy, plan.bases[b], operations));
  }

  lemma FoundLayer(m: map<nat, Layer>, layers: seq<Layer>, p: Place)
    requires Indexed(m, layers) && p.layer in layers
    ensures p.layer.id in m && m[p.layer.id] == p.layer
  {
  }

  lemma BuiltGuarantees(plan: Plan)
    requires Built(plan)
    ensures Acyclic(plan.aliases) && DistinctIds(plan.layers)
  {
  }

  /** The identity states the mode, the policy, the base, and for each operation on that base,
      in composition order, the operation and the digests of the sources it references. */
  ghost predicate Identifies(plan: Plan, target: Name, id: TargetIdentity) {
    var found := IndexOf(plan.bases, Resolved(plan.aliases, target));
    && found.Some?
    && id.mode == plan.mode && id.policy == plan.policy && id.base == plan.bases[found.value]
    && IdentitiesAre(id.operations, Collected(plan.layers, plan.aliases, Resolved(plan.aliases, target)))
  }

  // ----- what the identity depends on -----

  /** Two operations with their layers' digests look the same to the identity. */
  ghost predicate SameOperation(p: Place, q: Place)
    requires ValidPlace(p) && ValidPlace(q)
  {
    && OperationAt(p) == OperationAt(q)
    && forall o :: o in References(OperationAt(p)) ==> p.layer.sourceDigests[o] == q.layer.sourceDigests[o]
  }

  ghost predicate SameOperations(ps: seq<Place>, qs: seq<Place>)
    requires ValidPlaces(ps) && ValidPlaces(qs)
  {
    |ps| == |qs| && forall i :: 0 <= i < |ps| ==> SameOperation(ps[i], qs[i])
  }

  lemma SameIdentityAt(p: Place, q: Place)
    requires ValidPlace(p) && ValidPlace(q)
    ensures IdentityAt(p) == IdentityAt(q) <==> SameOperation(p, q)
  {
    hide References;
    var a, b := IdentityAt(p), IdentityAt(q);
    if OperationAt(p) == OperationAt(q) {
      var os := References(OperationAt(p));
      if a == b {
        forall o | o in os
          ensures p.layer.sourceDigests[o] == q.layer.sourceDigests[o]
        {
          var i :| 0 <= i < |os| && os[i] == o;
          assert a.sources[i] == b.sources[i];
        }
      }
      if SameOperation(p, q) {
        assert a.sources == b.sources;
      }
    }
  }

  lemma SameIdentities(a: seq<OperationIdentity>, ps: seq<Place>, b: seq<OperationIdentity>, qs: seq<Place>)
    requires IdentitiesAre(a, ps) && IdentitiesAre(b, qs)
    ensures a == b <==> SameOperations(ps, qs)
  {
    hide IdentityAt, SameOperation, ValidPlace;
    if |ps| == |qs| {
      forall i | 0 <= i < |ps|
        ensures a[i] == b[i] <==> SameOperation(ps[i], qs[i])
      {
        SameIdentityAt(ps[i], qs[i]);
      }
      if SameOperations(ps, qs) {
        assert a == b;
      }
      if a == b {
        assert SameOperations(ps, qs);
      }
    }
  }

  /** What a target's identity sees of a plan. */
  ghost predicate SameView(p: Plan, t: Name, q: Plan, u: Name)
    requires ValidPlan(p) && ValidPlan(q)
  {
    var found, other := IndexOf(p.bases, Resolved(p.aliases, t)), IndexOf(q.bases, Resolved(q.aliases, u));
    var ps, qs := Collected(p.layers, p.aliases, Resolved(p.aliases, t)), Collected(q.layers, q.aliases, Resolved(q.aliases, u));
    && p.mode == q.mode && p.policy == q.policy
    && found.Some? && other.Some? && p.bases[found.value] == q.bases[other.value]
    && ValidPlaces(ps) && ValidPlaces(qs) && SameOperations(ps, qs)
  }

  /** Two targets have the same identity exactly when they agree on mode, policy, base, the
      operations on the base in order, and the digests of the sources those reference.  Other
      bases, other operations, aliases, layer identities and unreferenced digests do not count. */
  lemma IdentityDependsOnlyOnView(p: Plan, t: Name, q: Plan, u: Name, a: TargetIdentity, b: TargetIdentity)
    requires ValidPlan(p) && ValidPlan(q) && Identifies(p, t, a) && Identifies(q, u, b)
    ensures a == b <==> SameView(p, t, q, u)
  {
    hide ValidPlan, Resolved, IndexOf, Collected, SameOperations, IdentityAt;
    SameIdentities(a.operations, Collected(p.layers, p.aliases, Resolved(p.aliases, t)),
                   b.operations, Collected(q.layers, q.aliases, Resolved(q.aliases, u)));
  }

  /** The digest: each operation identity is hashed, then the target identity over those hashes. */
  datatype Payload = Payload(mode: CompositionMode, policy: ConflictPolicy, base: BaseTensor, operations: seq<Digest>)

  function HashAll(ids: seq<OperationIdentity>, hash: OperationIdentity -> Digest): (ds: seq<Digest>)
    ensures |ds| == |ids| && forall i :: 0 <= i < |ids| ==> ds[i] == hash(ids[i])
  {
    if ids == [] then [] else HashAll(ids[..|ids| - 1], hash) + [hash(ids[|ids| - 1])]
  }

  function TargetDigest(id: TargetIdentity, operationHash: OperationIdentity -> Digest, targetHash: Payload -> Digest): Digest {
    targetHash(Payload(id.mode, id.policy, id.base, HashAll(id.operations, operationHash)))
  }

  /** With collision-free hashing the nested digest separates exactly the different identities. */
  lemma DigestDecidesIdentity(a: TargetIdentity, b: TargetIdentity, operationHash: OperationIdentity -> Digest,
                              targetHash: Payload -> Digest)
    requires Injective(operationHash) && Injective(targetHash)
    ensures TargetDigest(a, operationHash, targetHash) == TargetDigest(b, operationHash, targetHash) <==> a == b
  {
    if TargetDigest(a, operationHash, targetHash) == TargetDigest(b, operationHash, targetHash) {
      var x, y := HashAll(a.operations, operationHash), HashAll(b.operations, operationHash);
      assert x == y;
      forall i | 0 <= i < |a.operations|
        ensures a.operations[i] == b.operations[i]
      {
        assert x[i] == y[i];
      }
    }
  }

  /** Inserting a layer that does not touch a base anywhere among the layers leaves what the
      base collects, and so its identity, unchanged. */
  lemma QuietLayer(before: seq<Layer>, quiet: Layer, after: seq<Layer>, g: Graph, name: Name)
    requires forall i :: 0 <= i < |quiet.operations| ==> Resolved(g, quiet.operations[i].target) != name
    ensures Collected(before + [quiet] + after, g, name) == Collected(before + after, g, name)
  {
    hide Collected, Resolved;
    CollectedConcat(before + [quiet], after, g, name);
    CollectedConcat(before, [quiet], g, name);
    CollectedConcat(before, after, g, name);
    QuietCollects(quiet, g, name);
    assert Collected(before, g, name) + [] == Collected(before, g, name);
  }

  lemma OneLayer(layer: Layer)
    ensures AllPlaces([layer]) == PlacesOf(layer)
  {
    hide PlacesOf;
    assert [layer][..0] == [];
    assert [] + PlacesOf(layer) == PlacesOf(layer);
  }

  lemma QuietCollects(quiet: Layer, g: Graph, name: Name)
    requires forall i :: 0 <= i < |quiet.operations| ==> Resolved(g, quiet.operations[i].target) != name
    ensures Collected([quiet], g, name) == []
  {
    hide AllPlaces, Select, Resolved;
    OneLayer(quiet);
    var ps := PlacesOf(quiet);
    forall i | 0 <= i < |ps|
      ensures !Targets(g, ps[i], name)
    {
      assert ps[i] == Place(quiet, i);
    }
    SelectsNothing(ps, g, name);
  }

  lemma {:induction false} SelectsNothing(ps: seq<Place>, g: Graph, name: Name)
    requires AllExist(ps) && forall i :: 0 <= i < |ps| ==> !Targets(g, ps[i], name)
    ensures Select(ps, g, name) == []
  {
    if ps != [] {
      SelectsNothing(ps[..|ps| - 1], g, name);
    }
  }
}

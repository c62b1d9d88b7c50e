/** Ordered overlay plans: composition over canonical base tensors, and the identity of one target. */
module Overlay {
  import opened Checked
  import opened Shapes
  import opened Aliases
  import opened Hashing

  datatype ConflictPolicy = Reject | Ordered
  datatype CompositionMode = Lazy | Eager

  datatype BaseTensor = BaseTensor(name: Name, shape: Shape, content: Digest)

  /** A stored tensor: the file ordinals of its payload and its companions, and whatever else
      its descriptor says. */
  datatype SourceTensor = SourceTensor(name: Name, shape: Shape, payload: nat, companions: seq<nat>, descriptor: seq<nat>)

  datatype Operation =
    | Replace(target: Name, value: SourceTensor, implementation: seq<nat>)
    | Add(target: Name, value: SourceTensor, scale: real, implementation: seq<nat>)
    | LowRank(target: Name, down: SourceTensor, up: SourceTensor, rank: nat, scale: real, implementation: seq<nat>)
    | Recipe(target: Name, inputs: seq<SourceTensor>, outputShape: Shape, recipe: seq<nat>)
  {
    function Sources(): seq<SourceTensor> {
      match this
      case Replace(_, value, _) => [value]
      case Add(_, value, _, _) => [value]
      case LowRank(_, down, up, _, _, _) => [down, up]
      case Recipe(_, inputs, _, _) => inputs
    }

    function ValidateShape(base: Shape): bool {
      match this
      case Replace(_, value, _) => value.shape == base
      case Add(_, value, _, _) => value.shape == base
      case LowRank(_, down, up, rank, _, _) =>
        |base| == 2 && rank > 0 && down.shape == [rank, base[1]] && up.shape == [base[0], rank]
      case Recipe(_, _, outputShape, _) => outputShape == base
    }
  }

  datatype Layer = Layer(id: nat, sourceDigests: seq<Digest>, operations: seq<Operation>)

  datatype OperationRef = OperationRef(layer: nat, index: nat)

  datatype OverlayBinding = OverlayBinding(base: BaseTensor, operations: seq<OperationRef>)

  datatype Plan = Plan(
    mode: CompositionMode,
    policy: ConflictPolicy,
    aliases: Graph,
    bases: seq<BaseTensor>,
    layers: seq<Layer>,
    bindings: seq<OverlayBinding>)

  // ----- the composition order -----

  /** One operation of one layer. */
  datatype Place = Place(layer: Layer, index: nat)

  predicate Exists(p: Place) {
    p.index < |p.layer.operations|
  }

  function OperationAt(p: Place): Operation
    requires Exists(p)
  {
    p.layer.operations[p.index]
  }

  function PlacesIn(layer: Layer, m: nat): (ps: seq<Place>)
    requires m <= |layer.operations|
    ensures |ps| == m && forall i :: 0 <= i < m ==> ps[i] == Place(layer, i)
  {
    if m == 0 then [] else PlacesIn(layer, m - 1) + [Place(layer, m - 1)]
  }

  predicate AllExist(ps: seq<Place>) {
    forall i :: 0 <= i < |ps| ==> Exists(ps[i])
  }

  function PlacesOf(layer: Layer): (ps: seq<Place>)
    ensures AllExist(ps)
  {
    PlacesIn(layer, |layer.operations|)
  }

  /** Every operation, in layer-then-index order. */
  function AllPlaces(layers: seq<Layer>): (ps: seq<Place>)
    ensures AllExist(ps)
  {
    if layers == [] then []
    else
      AllPlaces(layers[..|layers| - 1]) + PlacesOf(layers[|layers| - 1])
  }

  predicate Targets(g: Graph, p: Place, name: Name)
    requires Exists(p)
  {
    Resolved(g, OperationAt(p).target) == name
  }

  /** The operations whose target resolves to a name, in the same order. */
  function Select(ps: seq<Place>, g: Graph, name: Name): (selected: seq<Place>)
    requires AllExist(ps)
    ensures AllExist(selected)
  {
    if ps == [] then []
    else
      var last := ps[|ps| - 1];
      Select(ps[..|ps| - 1], g, name) + if Targets(g, last, name) then [last] else []
  }

  function RefAt(p: Place): OperationRef {
    OperationRef(p.layer.id, p.index)
  }

  function RefsOf(ps: seq<Place>): (refs: seq<OperationRef>)
    ensures |refs| == |ps| && forall i :: 0 <= i < |ps| ==> refs[i] == RefAt(ps[i])
  {
    if ps == [] then [] else RefsOf(ps[..|ps| - 1]) + [RefAt(ps[|ps| - 1])]
  }

  /** What one base collects from the layers. */
  function Collected(layers: seq<Layer>, g: Graph, name: Name): seq<Place> {
    Select(AllPlaces(layers), g, name)
  }

  lemma SelectStep(ps: seq<Place>, p: Place, g: Graph, name: Name)
    requires AllExist(ps) && Exists(p)
    ensures AllExist(ps + [p])
    ensures Select(ps + [p], g, name) == Select(ps, g, name) + (if Targets(g, p, name) then [p] else [])
  {
    assert (ps + [p])[..|ps|] == ps;
  }

  lemma {:induction false} SelectConcat(a: seq<Place>, b: seq<Place>, g: Graph, name: Name)
    requires AllExist(a) && AllExist(b)
    ensures Select(a + b, g, name) == Select(a, g, name) + Select(b, g, name)
  {
    if b == [] {
      assert a + b == a;
    } else {
      var n := |b| - 1;
      var front := b[..n];
      assert front + [b[n]] == b;
      assert a + b == (a + front) + [b[n]];
      SelectConcat(a, front, g, name);
      SelectStep(a + front, b[n], g, name);
      SelectStep(front, b[n], g, name);
      hide Select, Targets;
      Associate(Select(a, g, name), Select(front, g, name), if Targets(g, b[n], name) then [b[n]] else []);
    }
  }

  lemma AllPlacesStep(layers: seq<Layer>, layer: Layer)
    ensures AllPlaces(layers + [layer]) == AllPlaces(layers) + PlacesOf(layer)
  {
    assert (layers + [layer])[..|layers|] == layers;
  }

  lemma Associate(x: seq<Place>, y: seq<Place>, z: seq<Place>)
    ensures x + (y + z) == (x + y) + z
  {
  }

  lemma NoPlaces()
    ensures AllPlaces([]) == []
  {
  }

  lemma {:induction false} AllPlacesConcat(a: seq<Layer>, b: seq<Layer>)
    ensures AllPlaces(a + b) == AllPlaces(a) + AllPlaces(b)
  {
    hide AllPlaces, PlacesOf;
    if b == [] {
      assert a + b == a;
      NoPlaces();
    } else {
      var n := |b| - 1;
      var front := b[..n];
      assert front + [b[n]] == b;
      assert a + b == (a + front) + [b[n]];
      AllPlacesConcat(a, front);
      AllPlacesStep(a + front, b[n]);
      AllPlacesStep(front, b[n]);
      Associate(AllPlaces(a), AllPlaces(front), PlacesOf(b[n]));
    }
  }

  lemma CollectedConcat(a: seq<Layer>, b: seq<Layer>, g: Graph, name: Name)
    ensures Collected(a + b, g, name) == Collected(a, g, name) + Collected(b, g, name)
  {
    AllPlacesConcat(a, b);
    SelectConcat(AllPlaces(a), AllPlaces(b), g, name);
  }

  // ----- building a plan -----

  ghost predicate DistinctNames(bases: seq<BaseTensor>) {
    forall i, j :: 0 <= i < j < |bases| ==> bases[i].name != bases[j].name
  }

  ghost predicate DistinctIds(layers: seq<Layer>) {
    forall i, j :: 0 <= i < j < |layers| ==> layers[i].id != layers[j].id
  }

  function IndexOf(bases: seq<BaseTensor>, name: Name): (r: Option<nat>)
    ensures r.Some? ==> r.value < |bases| && bases[r.value].name == name
    ensures r.None? ==> forall i :: 0 <= i < |bases| ==> bases[i].name != name
  {
    if bases == [] then None
    else if bases[|bases| - 1].name == name then Some(|bases| - 1)
    else IndexOf(bases[..|bases| - 1], name)
  }

  predicate IsBase(bases: seq<BaseTensor>, name: Name) {
    IndexOf(bases, name).Some?
  }

  /** Aliases shadow no base and resolve to one. */
  ghost predicate AliasesFit(g: Graph, bases: seq<BaseTensor>) {
    forall alias :: alias in g ==> AliasFits(g, bases, alias)
  }

  predicate AliasFits(g: Graph, bases: seq<BaseTensor>, alias: Name) {
    !IsBase(bases, alias) && IsBase(bases, Resolved(g, alias))
  }

  /** An operation that finds its base, fits its shape and has a 32-bit index. */
  predicate Placeable(g: Graph, bases: seq<BaseTensor>, p: Place)
    requires Exists(p)
  {
    var base := IndexOf(bases, Resolved(g, OperationAt(p).target));
    base.Some? && OperationAt(p).ValidateShape(bases[base.value].shape) && p.index <= U32_MAX
  }

  ghost predicate AllPlaceable(g: Graph, bases: seq<BaseTensor>, ps: seq<Place>)
    requires AllExist(ps)
  {
    forall i :: 0 <= i < |ps| ==> Placeable(g, bases, ps[i])
  }

  /** Under the rejecting policy no base collects two operations. */
  ghost predicate NoConflict(policy: ConflictPolicy, g: Graph, bases: seq<BaseTensor>, ps: seq<Place>)
    requires AllExist(ps)
  {
    policy.Reject? ==> forall b :: 0 <= b < |bases| ==> |Select(ps, g, bases[b].name)| <= 1
  }

  ghost predicate Buildable(bases: seq<BaseTensor>, g: Graph, layers: seq<Layer>, policy: ConflictPolicy) {
    && DistinctNames(bases)
    && AliasesFit(g, bases)
    && DistinctIds(layers)
    && AllPlaceable(g, bases, AllPlaces(layers))
    && NoConflict(policy, g, bases, AllPlaces(layers))
  }

  /** Each base holds exactly the references it collects from the given places. */
  ghost predicate RefsMatch(refs: seq<seq<OperationRef>>, g: Graph, bases: seq<BaseTensor>, ps: seq<Place>)
    requires AllExist(ps)
  {
    |refs| == |bases| && forall b :: 0 <= b < |bases| ==> refs[b] == RefsOf(Select(ps, g, bases[b].name))
  }

  lemma AllExistStep(ps: seq<Place>, p: Place)
    requires AllExist(ps) && Exists(p)
    ensures AllExist(ps + [p])
  {
  }

  lemma RefsOfStep(ps: seq<Place>, p: Place)
    ensures RefsOf(ps + [p]) == RefsOf(ps) + [RefAt(p)]
  {
    assert (ps + [p])[..|ps|] == ps;
  }

  /** Places `p` in the references of its base. */
  lemma RefsMatchStep(refs: seq<seq<OperationRef>>, g: Graph, bases: seq<BaseTensor>, ps: seq<Place>, p: Place, b: nat)
    requires AllExist(ps) && Exists(p) && RefsMatch(refs, g, bases, ps) && DistinctNames(bases)
    requires b < |bases| && Targets(g, p, bases[b].name)
    ensures AllExist(ps + [p])
    ensures RefsMatch(refs[b := refs[b] + [RefAt(p)]], g, bases, ps + [p])
  {
    AllExistStep(ps, p);
    var next := refs[b := refs[b] + [RefAt(p)]];
    forall c | 0 <= c < |bases|
      ensures next[c] == RefsOf(Select(ps + [p], g, bases[c].name))
    {
      SelectStep(ps, p, g, bases[c].name);
      if c == b {
        RefsOfStep(Select(ps, g, bases[c].name), p);
      } else {
        assert bases[c].name != bases[b].name;
      }
    }
  }

  lemma NoConflictStep(policy: ConflictPolicy, g: Graph, bases: seq<BaseTensor>, ps: seq<Place>, p: Place, b: nat)
    requires AllExist(ps) && Exists(p) && NoConflict(policy, g, bases, ps) && DistinctNames(bases)
    requires b < |bases| && Targets(g, p, bases[b].name)
    requires policy.Reject? ==> Select(ps, g, bases[b].name) == []
    ensures AllExist(ps + [p]) && NoConflict(policy, g, bases, ps + [p])
  {
    AllExistStep(ps, p);
    if policy.Reject? {
      forall c | 0 <= c < |bases|
        ensures |Select(ps + [p], g, bases[c].name)| <= 1
      {
        SelectStep(ps, p, g, bases[c].name);
        if c != b {
          assert bases[c].name != bases[b].name;
        }
      }
    }
  }

  lemma AllPlaceableStep(g: Graph, bases: seq<BaseTensor>, ps: seq<Place>, p: Place)
    requires AllExist(ps) && Exists(p) && AllPlaceable(g, bases, ps) && Placeable(g, bases, p)
    ensures AllExist(ps + [p]) && AllPlaceable(g, bases, ps + [p])
  {
  }

  /** A prefix that cannot be extended makes the whole unbuildable. */
  lemma Stuck(bases: seq<BaseTensor>, g: Graph, policy: ConflictPolicy, ps: seq<Place>, p: Place, rest: seq<Place>)
    requires AllExist(ps) && Exists(p) && AllExist(rest)
    requires !Placeable(g, bases, p)
             || (policy.Reject? && exists b :: 0 <= b < |bases| && Targets(g, p, bases[b].name)
                                              && Select(ps, g, bases[b].name) != [])
    ensures AllExist(ps + [p] + rest)
    ensures !(AllPlaceable(g, bases, ps + [p] + rest) && NoConflict(policy, g, bases, ps + [p] + rest))
  {
    var all := ps + [p] + rest;
    AllExistStep(ps, p);
    forall i | 0 <= i < |all|
      ensures Exists(all[i])
    {
      assert all[i] == if i < |ps| then ps[i] else if i == |ps| then p else rest[i - |ps| - 1];
    }
    if !Placeable(g, bases, p) {
      assert all[|ps|] == p;
    } else {
      var b :| 0 <= b < |bases| && Targets(g, p, bases[b].name) && Select(ps, g, bases[b].name) != [];
      SelectStep(ps, p, g, bases[b].name);
      SelectConcat(ps + [p], rest, g, bases[b].name);
      assert |Select(all, g, bases[b].name)| >= 2;
    }
  }

  lemma Shorter(bases: seq<BaseTensor>, g: Graph, policy: ConflictPolicy, ps: seq<Place>, rest: seq<Place>)
    requires AllExist(ps) && AllExist(rest) && AllExist(ps + rest)
    requires AllPlaceable(g, bases, ps + rest) && NoConflict(policy, g, bases, ps + rest)
    ensures AllPlaceable(g, bases, ps) && NoConflict(policy, g, bases, ps)
  {
    forall i | 0 <= i < |ps|
      ensures Placeable(g, bases, ps[i])
    {
      assert (ps + rest)[i] == ps[i];
    }
    forall b | 0 <= b < |bases|
      ensures |Select(ps, g, bases[b].name)| <= |Select(ps + rest, g, bases[b].name)|
    {
      SelectConcat(ps, rest, g, bases[b].name);
    }
  }

  lemma PlacesInSplit(layer: Layer, m: nat)
    requires m < |layer.operations|
    ensures var all := PlacesOf(layer);
            m < |all| && all == PlacesIn(layer, m) + [Place(layer, m)] + all[m + 1..]
  {
    hide PlacesIn;
    var all := PlacesIn(layer, |layer.operations|);
    assert PlacesIn(layer, m) == all[..m];
    assert all[m] == Place(layer, m);
  }

  /** Places the operations of one layer after those already placed. */
  method PlaceLayer(bases: seq<BaseTensor>, g: Graph, policy: ConflictPolicy, layer: Layer, ghost done: seq<Place>,
                    placed: seq<seq<OperationRef>>) returns (r: Result<seq<seq<OperationRef>>>)
    requires DistinctNames(bases) && Acyclic(g)
    requires AllExist(done) && AllPlaceable(g, bases, done) && NoConflict(policy, g, bases, done)
    requires RefsMatch(placed, g, bases, done)
    ensures AllExist(done + PlacesOf(layer))
    ensures r.Ok? <==> AllPlaceable(g, bases, done + PlacesOf(layer))
                       && NoConflict(policy, g, bases, done + PlacesOf(layer))
    ensures r.Ok? ==> RefsMatch(r.value, g, bases, done + PlacesOf(layer))
    ensures r.Err? ==> r == Err(Binding) || (r == Err(ResourceLimit) && |layer.operations| > U32_MAX + 1)
  {
    hide AllPlaceable, NoConflict, RefsMatch, Select, RefsOf, PlacesIn, Resolved, Acyclic, DistinctNames;
    var refs := placed;
    var k := 0;
    assert done + PlacesIn(layer, 0) == done;
    while k < |layer.operations|
      invariant 0 <= k <= |layer.operations|
      invariant AllExist(done + PlacesIn(layer, k))
      invariant AllPlaceable(g, bases, done + PlacesIn(layer, k)) && NoConflict(policy, g, bases, done + PlacesIn(layer, k))
      invariant RefsMatch(refs, g, bases, done + PlacesIn(layer, k))
    {
      ghost var ps := done + PlacesIn(layer, k);
      var p := Place(layer, k);
      ghost var rest := PlacesOf(layer)[k + 1..];
      PlacesInSplit(layer, k);
      assert ps + [p] + rest == done + PlacesOf(layer);
      assert ps + [p] == done + PlacesIn(layer, k + 1) by { NextPlace(layer, k, done); }
      var operation := layer.operations[k];
      var canonical := Resolve(g, operation.target);
      var found := IndexOf(bases, canonical);
      if found.None? || !operation.ValidateShape(bases[found.value].shape) {
        Stuck(bases, g, policy, ps, p, rest);
        return Err(Binding);
      }
      var b := found.value;
      RefsAreSelected(refs, g, bases, ps, b);
      if policy.Reject? && refs[b] != [] {
        Stuck(bases, g, policy, ps, p, rest);
        return Err(Binding);
      }
      if k > U32_MAX {
        Stuck(bases, g, policy, ps, p, rest);
        return Err(ResourceLimit);
      }
      AllPlaceableStep(g, bases, ps, p);
      NoConflictStep(policy, g, bases, ps, p, b);
      RefsMatchStep(refs, g, bases, ps, p, b);
      refs := refs[b := refs[b] + [OperationRef(layer.id, k)]];
      k := k + 1;
    }
    return Ok(refs);
  }

  lemma NextPlace(layer: Layer, k: nat, done: seq<Place>)
    requires k < |layer.operations|
    ensures done + PlacesIn(layer, k) + [Place(layer, k)] == done + PlacesIn(layer, k + 1)
  {
  }

  lemma RefsAreSelected(refs: seq<seq<OperationRef>>, g: Graph, bases: seq<BaseTensor>, ps: seq<Place>, b: nat)
    requires AllExist(ps) && RefsMatch(refs, g, bases, ps) && b < |bases|
    ensures |refs| == |bases| && (refs[b] == [] <==> Select(ps, g, bases[b].name) == [])
  {
  }
}

/** Which layers a plan accepts and how each base composes them, by layer position and index. */
module OverlayOrder {
  import opened Checked
  import opened Aliases
  import opened Overlay
  import opened OverlayPlans
  import opened OverlayIdentity

  // ----- positions in the composition order -----

  predicate InLayers(layers: seq<Layer>, l: nat, i: nat) {
    l < |layers| && i < |layers[l].operations|
  }

  /** The number of operations before layer `l`. */
  function Start(layers: seq<Layer>, l: nat): nat
    requires l <= |layers|
  {
    if l == 0 then 0 else Start(layers, l - 1) + |layers[l - 1].operations|
  }

  lemma {:induction false} StartGrows(layers: seq<Layer>, l: nat, m: nat)
    requires l < m <= |layers|
    ensures Start(layers, l) + |layers[l].operations| <= Start(layers, m)
  {
    if l < m - 1 {
      StartGrows(layers, l, m - 1);
    }
  }

  lemma {:induction false} StartOfPrefix(layers: seq<Layer>, n: nat, l: nat)
    requires l <= n <= |layers|
    ensures Start(layers[..n], l) == Start(layers, l)
  {
    if l > 0 {
      StartOfPrefix(layers, n, l - 1);
    }
  }

  lemma {:induction false} PlaceAt(layers: seq<Layer>, l: nat, i: nat)
    requires InLayers(layers, l, i)
    ensures |AllPlaces(layers)| == Start(layers, |layers|)
    ensures Start(layers, l) + i < |AllPlaces(layers)|
    ensures AllPlaces(layers)[Start(layers, l) + i] == Place(layers[l], i)
  {
    var n := |layers| - 1;
    PlacesCount(layers);
    PlacesCount(layers[..n]);
    StartOfPrefix(layers, n, n);
    StartGrows(layers, l, |layers|);
    if l < n {
      PlaceAt(layers[..n], l, i);
      StartOfPrefix(layers, n, l);
    }
  }

  lemma {:induction false} PlacesCount(layers: seq<Layer>)
    ensures |AllPlaces(layers)| == Start(layers, |layers|)
  {
    if layers != [] {
      var n := |layers| - 1;
      PlacesCount(layers[..n]);
      StartOfPrefix(layers, n, n);
    }
  }

  /** The layer and the index at a position. */
  lemma {:induction false} LocatePlace(layers: seq<Layer>, q: nat, m: nat) returns (l: nat, i: nat)
    requires m <= |layers| && q < Start(layers, m)
    ensures l < m && InLayers(layers, l, i) && q == Start(layers, l) + i
    decreases m
  {
    if q < Start(layers, m - 1) {
      l, i := LocatePlace(layers, q, m - 1);
    } else {
      l, i := m - 1, q - Start(layers, m - 1);
    }
  }

  predicate Earlier(a: (nat, nat), b: (nat, nat)) {
    a.0 < b.0 || (a.0 == b.0 && a.1 < b.1)
  }

  lemma PositionsOrder(layers: seq<Layer>, l: nat, i: nat, m: nat, j: nat)
    requires InLayers(layers, l, i) && InLayers(layers, m, j)
    ensures Start(layers, l) + i < Start(layers, m) + j <==> Earlier((l, i), (m, j))
  {
    if l < m {
      StartGrows(layers, l, m);
    }
    if m < l {
      StartGrows(layers, m, l);
    }
  }

  // ----- selection -----

  /** The positions, in order, that a selection takes. */
  ghost predicate SelectsAt(ps: seq<Place>, g: Graph, name: Name, at: seq<nat>)
    requires AllExist(ps)
  {
    && |at| == |Select(ps, g, name)|
    && (forall k :: 0 <= k < |at| ==> at[k] < |ps| && Select(ps, g, name)[k] == ps[at[k]] && Targets(g, ps[at[k]], name))
    && (forall j, k :: 0 <= j < k < |at| ==> at[j] < at[k])
    && forall q :: 0 <= q < |ps| && Targets(g, ps[q], name) ==> q in at
  }

  lemma {:induction false} SelectedPositions(ps: seq<Place>, g: Graph, name: Name) returns (at: seq<nat>)
    requires AllExist(ps)
    ensures SelectsAt(ps, g, name, at)
  {
    if ps == [] {
      at := [];
    } else {
      var n := |ps| - 1;
      var front := SelectedPositions(ps[..n], g, name);
      hide Targets;
      if Targets(g, ps[n], name) {
        at := front + [n];
        assert Select(ps, g, name) == Select(ps[..n], g, name) + [ps[n]];
        assert at[|front|] == n;
        forall q | 0 <= q < |ps| && Targets(g, ps[q], name)
          ensures q in at
        {
          if q < n {
            assert Targets(g, ps[..n][q], name);
            assert q in front;
          }
        }
      } else {
        at := front;
        assert Select(ps, g, name) == Select(ps[..n], g, name);
        forall q | 0 <= q < |ps| && Targets(g, ps[q], name)
          ensures q in at
        {
          assert Targets(g, ps[..n][q], name);
        }
      }
    }
  }

  // ----- the composition order of a binding -----

  predicate ResolvesTo(layers: seq<Layer>, g: Graph, l: nat, i: nat, name: Name)
    requires InLayers(layers, l, i)
  {
    Resolved(g, layers[l].operations[i].target) == name
  }

  /** The operations at these layer positions and indices are exactly the ones that resolve to the
      name, earlier layers first and in index order within a layer. */
  ghost predicate InCompositionOrder(layers: seq<Layer>, g: Graph, name: Name, at: seq<(nat, nat)>) {
    && (forall k :: 0 <= k < |at| ==> InLayers(layers, at[k].0, at[k].1) && ResolvesTo(layers, g, at[k].0, at[k].1, name))
    && (forall j, k :: 0 <= j < k < |at| ==> Earlier(at[j], at[k]))
    && forall l: nat, i: nat :: InLayers(layers, l, i) && ResolvesTo(layers, g, l, i, name) ==> (l, i) in at
  }

  /** The layer position and index of each listed position. */
  ghost predicate Located(layers: seq<Layer>, positions: seq<nat>, at: seq<(nat, nat)>) {
    |at| == |positions|
    && forall j :: 0 <= j < |at| ==>
         InLayers(layers, at[j].0, at[j].1) && positions[j] == Start(layers, at[j].0) + at[j].1
  }

  lemma LocateAll(layers: seq<Layer>, positions: seq<nat>) returns (at: seq<(nat, nat)>)
    requires forall k :: 0 <= k < |positions| ==> positions[k] < Start(layers, |layers|)
    ensures Located(layers, positions, at)
  {
    at := [];
    var k := 0;
    while k < |positions|
      invariant 0 <= k <= |positions| && Located(layers, positions[..k], at)
    {
      var l, i := LocatePlace(layers, positions[k], |layers|);
      at := at + [(l, i)];
      k := k + 1;
    }
    assert positions[..k] == positions;
  }

  lemma LocatedAscends(layers: seq<Layer>, positions: seq<nat>, at: seq<(nat, nat)>)
    requires Located(layers, positions, at) && forall j, k :: 0 <= j < k < |positions| ==> positions[j] < positions[k]
    ensures forall j, k :: 0 <= j < k < |at| ==> Earlier(at[j], at[k])
  {
    forall j, k | 0 <= j < k < |at|
      ensures Earlier(at[j], at[k])
    {
      PositionsOrder(layers, at[j].0, at[j].1, at[k].0, at[k].1);
    }
  }

  lemma LocatedAt(layers: seq<Layer>, positions: seq<nat>, at: seq<(nat, nat)>, l: nat, i: nat)
    requires Located(layers, positions, at) && InLayers(layers, l, i) && Start(layers, l) + i in positions
    ensures (l, i) in at
  {
    var j :| 0 <= j < |positions| && positions[j] == Start(layers, l) + i;
    PositionsOrder(layers, l, i, at[j].0, at[j].1);
    PositionsOrder(layers, at[j].0, at[j].1, l, i);
  }

  lemma CollectedOrder(layers: seq<Layer>, g: Graph, name: Name) returns (at: seq<(nat, nat)>)
    ensures InCompositionOrder(layers, g, name, at)
    ensures var ps := Collected(layers, g, name);
            |ps| == |at| && forall k :: 0 <= k < |at| ==> ps[k] == Place(layers[at[k].0], at[k].1)
  {
    hide Select, AllPlaces, Resolved, Earlier;
    PlacesCount(layers);
    var ps := AllPlaces(layers);
    var positions := SelectedPositions(ps, g, name);
    at := LocateAll(layers, positions);
    LocatedAscends(layers, positions, at);
    forall j | 0 <= j < |at|
      ensures ps[positions[j]] == Place(layers[at[j].0], at[j].1)
      ensures ResolvesTo(layers, g, at[j].0, at[j].1, name)
    {
      PlaceAt(layers, at[j].0, at[j].1);
    }
    forall l: nat, i: nat | InLayers(layers, l, i) && ResolvesTo(layers, g, l, i, name)
      ensures (l, i) in at
    {
      PlaceAt(layers, l, i);
      assert Targets(g, ps[Start(layers, l) + i], name);
      LocatedAt(layers, positions, at, l, i);
    }
  }

  /** In a built plan each binding refers, in composition order, to exactly the operations whose
      target resolves to its base. */
  lemma BindingInOrder(plan: Plan, b: nat) returns (at: seq<(nat, nat)>)
    requires Built(plan) && b < |plan.bases|
    ensures |plan.bindings| == |plan.bases| && plan.bindings[b].base == plan.bases[b]
    ensures InCompositionOrder(plan.layers, plan.aliases, plan.bases[b].name, at)
    ensures |plan.bindings[b].operations| == |at|
    ensures forall k :: 0 <= k < |at| ==>
              plan.bindings[b].operations[k] == OperationRef(plan.layers[at[k].0].id, at[k].1)
  {
    hide Collected, InCompositionOrder, Buildable;
    at := CollectedOrder(plan.layers, plan.aliases, plan.bases[b].name);
    assert plan.bindings[b] == BindingOf(plan, b);
  }

  // ----- exactly which inputs are accepted -----

  /** The operation finds a base of its target's name that its value fits. */
  predicate Fits(bases: seq<BaseTensor>, g: Graph, layers: seq<Layer>, l: nat, i: nat)
    requires InLayers(layers, l, i)
  {
    i <= U32_MAX
    && exists b :: 0 <= b < |bases| && bases[b].name == Resolved(g, layers[l].operations[i].target)
                   && layers[l].operations[i].ValidateShape(bases[b].shape)
  }

  lemma PlaceableFits(bases: seq<BaseTensor>, g: Graph, layers: seq<Layer>, l: nat, i: nat)
    requires DistinctNames(bases) && InLayers(layers, l, i)
    ensures Placeable(g, bases, Place(layers[l], i)) <==> Fits(bases, g, layers, l, i)
  {
    hide Resolved;
    if Fits(bases, g, layers, l, i) {
      var b :| 0 <= b < |bases| && bases[b].name == Resolved(g, layers[l].operations[i].target)
               && layers[l].operations[i].ValidateShape(bases[b].shape);
      var found := IndexOf(bases, bases[b].name);
      assert found.Some? && found.value == b;
    }
  }

  lemma AllPlaceableFits(bases: seq<BaseTensor>, g: Graph, layers: seq<Layer>)
    requires DistinctNames(bases)
    ensures AllPlaceable(g, bases, AllPlaces(layers))
            <==> forall l: nat, i: nat :: InLayers(layers, l, i) ==> Fits(bases, g, layers, l, i)
  {
    hide Placeable, Fits, AllPlaces, DistinctNames;
    PlacesCount(layers);
    if AllPlaceable(g, bases, AllPlaces(layers)) {
      forall l: nat, i: nat | InLayers(layers, l, i)
        ensures Fits(bases, g, layers, l, i)
      {
        PlaceAt(layers, l, i);
        PlaceableFits(bases, g, layers, l, i);
      }
    }
    if forall l: nat, i: nat :: InLayers(layers, l, i) ==> Fits(bases, g, layers, l, i) {
      forall q | 0 <= q < |AllPlaces(layers)|
        ensures Placeable(g, bases, AllPlaces(layers)[q])
      {
        var l, i := LocatePlace(layers, q, |layers|);
        PlaceAt(layers, l, i);
        PlaceableFits(bases, g, layers, l, i);
      }
    }
  }

  /** No two operations resolve to one name. */
  ghost predicate OneEach(g: Graph, layers: seq<Layer>) {
    forall l: nat, i: nat, m: nat, j: nat ::
      (InLayers(layers, l, i) && InLayers(layers, m, j)
       && Resolved(g, layers[l].operations[i].target) == Resolved(g, layers[m].operations[j].target)) ==> l == m && i == j
  }

  lemma ListedOnce(g: Graph, layers: seq<Layer>, name: Name, at: seq<(nat, nat)>, j: nat, k: nat)
    requires OneEach(g, layers) && InCompositionOrder(layers, g, name, at) && j < |at| && k < |at|
    ensures j == k
  {
    hide Resolved;
    assert ResolvesTo(layers, g, at[j].0, at[j].1, name) && ResolvesTo(layers, g, at[k].0, at[k].1, name);
  }

  lemma AtMostOne(g: Graph, layers: seq<Layer>, name: Name, at: seq<(nat, nat)>)
    requires OneEach(g, layers) && InCompositionOrder(layers, g, name, at)
    ensures |at| <= 1
  {
    if |at| > 1 {
      ListedOnce(g, layers, name, at, 0, 1);
    }
  }

  lemma NoConflictIsOneEach(policy: ConflictPolicy, bases: seq<BaseTensor>, g: Graph, layers: seq<Layer>)
    requires AllPlaceable(g, bases, AllPlaces(layers))
    ensures NoConflict(policy, g, bases, AllPlaces(layers)) <==> (policy.Reject? ==> OneEach(g, layers))
  {
    hide AllPlaces, Select, Resolved;
    if policy.Reject? && NoConflict(policy, g, bases, AllPlaces(layers)) {
      forall l: nat, i: nat, m: nat, j: nat
        | InLayers(layers, l, i) && InLayers(layers, m, j)
          && Resolved(g, layers[l].operations[i].target) == Resolved(g, layers[m].operations[j].target)
        ensures l == m && i == j
      {
        var name := Resolved(g, layers[l].operations[i].target);
        PlaceAt(layers, l, i);
        assert Placeable(g, bases, AllPlaces(layers)[Start(layers, l) + i]);
        var b := IndexOf(bases, name).value;
        var at := CollectedOrder(layers, g, name);
        assert |Select(AllPlaces(layers), g, bases[b].name)| <= 1;
        assert ResolvesTo(layers, g, l, i, name) && ResolvesTo(layers, g, m, j, name);
        assert (l, i) in at && (m, j) in at && |at| <= 1;
      }
    }
    if policy.Reject? && OneEach(g, layers) {
      forall b | 0 <= b < |bases|
        ensures |Select(AllPlaces(layers), g, bases[b].name)| <= 1
      {
        var at := CollectedOrder(layers, g, bases[b].name);
        AtMostOne(g, layers, bases[b].name, at);
      }
    }
  }

  /** What planning accepts: base names and layer identities are distinct, every alias shadows no
      base and leads to one, every operation fits the base its target resolves to, and under the
      rejecting policy no two operations resolve to the same base. */
  lemma BuildableExactly(bases: seq<BaseTensor>, g: Graph, layers: seq<Layer>, policy: ConflictPolicy)
    ensures Buildable(bases, g, layers, policy)
            <==> && (forall a, b :: 0 <= a < b < |bases| ==> bases[a].name != bases[b].name)
                 && (forall alias :: alias in g ==>
                       && (forall b :: 0 <= b < |bases| ==> bases[b].name != alias)
                       && exists b :: 0 <= b < |bases| && bases[b].name == Resolved(g, alias))
                 && (forall l, m :: 0 <= l < m < |layers| ==> layers[l].id != layers[m].id)
                 && (forall l: nat, i: nat :: InLayers(layers, l, i) ==> Fits(bases, g, layers, l, i))
                 && (policy.Reject? ==> OneEach(g, layers))
  {
    hide AllPlaces, Resolved, AllPlaceable, NoConflict, Fits, OneEach;
    if DistinctNames(bases) {
      AllPlaceableFits(bases, g, layers);
      if AllPlaceable(g, bases, AllPlaces(layers)) {
        NoConflictIsOneEach(policy, bases, g, layers);
      }
    }
    forall alias | alias in g
      ensures AliasFits(g, bases, alias)
              <==> && (forall b :: 0 <= b < |bases| ==> bases[b].name != alias)
                   && exists b :: 0 <= b < |bases| && bases[b].name == Resolved(g, alias)
    {
      NamedBase(bases, alias);
      NamedBase(bases, Resolved(g, alias));
    }
  }

  lemma NamedBase(bases: seq<BaseTensor>, name: Name)
    ensures IsBase(bases, name) <==> exists b :: 0 <= b < |bases| && bases[b].name == name
  {
    var found := IndexOf(bases, name);
    if found.Some? {
      assert bases[found.value].name == name;
    }
  }

  // ----- the shape of what an operation contributes -----

  /** The shape of a matrix product, when the inner dimensions agree. */
  function ProductShape(a: seq<nat>, b: seq<nat>): Option<seq<nat>> {
    if |a| == 2 && |b| == 2 && a[1] == b[0] then Some([a[0], b[1]]) else None
  }

  /** An operation fits a base exactly when what it contributes has the shape of the base; a
      low-rank update contributes the product of its two factors over a positive rank. */
  lemma ShapeIsExactly(operation: Operation, base: seq<nat>)
    ensures operation.ValidateShape(base)
            <==> match operation
                 case Replace(_, value, _) => value.shape == base
                 case Add(_, value, _, _) => value.shape == base
                 case LowRank(_, down, up, rank, _, _) =>
                   ProductShape(up.shape, down.shape) == Some(base) && up.shape[1] == rank > 0
                 case Recipe(_, _, outputShape, _) => outputShape == base
  {
    if operation.LowRank? && |operation.up.shape| == 2 && |operation.down.shape| == 2 && |base| == 2 {
      assert operation.down.shape == [operation.down.shape[0], operation.down.shape[1]];
      assert operation.up.shape == [operation.up.shape[0], operation.up.shape[1]];
      assert base == [base[0], base[1]];
    }
  }

  // ----- the files an operation references -----

  predicate StoredIn(s: SourceTensor, file: nat) {
    s.payload == file || file in s.companions
  }

  lemma FileStored(s: SourceTensor, file: nat)
    ensures file in FileOrdinals(s) <==> StoredIn(s, file)
  {
  }

  lemma {:induction false} OrdinalsOfSources(sources: seq<SourceTensor>, file: nat)
    ensures file in AllOrdinals(sources) <==> exists k :: 0 <= k < |sources| && StoredIn(sources[k], file)
  {
    if sources != [] {
      var n := |sources| - 1;
      var front := sources[..n];
      OrdinalsOfSources(front, file);
      FileStored(sources[n], file);
      assert file in AllOrdinals(sources) <==> file in AllOrdinals(front) || file in FileOrdinals(sources[n]);
      hide StoredIn, AllOrdinals, FileOrdinals;
      if file in AllOrdinals(front) {
        var k :| 0 <= k < n && StoredIn(front[k], file);
        assert StoredIn(sources[k], file);
      }
      if exists k :: 0 <= k < |sources| && StoredIn(sources[k], file) {
        var k :| 0 <= k < |sources| && StoredIn(sources[k], file);
        assert k < n ==> StoredIn(front[k], file);
      }
    }
  }

  /** An operation references exactly the payload and companion files of its tensors. */
  lemma ReferencesExactly(operation: Operation, file: nat)
    ensures file in References(operation)
            <==> match operation
                 case Replace(_, value, _) => StoredIn(value, file)
                 case Add(_, value, _, _) => StoredIn(value, file)
                 case LowRank(_, down, up, _, _, _) => StoredIn(down, file) || StoredIn(up, file)
                 case Recipe(_, inputs, _, _) => exists k :: 0 <= k < |inputs| && StoredIn(inputs[k], file)
  {
    hide StoredIn, AllOrdinals;
    DeduplicatedIsAscending(AllOrdinals(operation.Sources()));
    OrdinalsOfSources(operation.Sources(), file);
    match operation
    case LowRank(_, down, up, _, _, _) =>
      assert [down, up][0] == down && [down, up][1] == up;
    case Replace(_, value, _) => assert [value][0] == value;
    case Add(_, value, _, _) => assert [value][0] == value;
    case Recipe(_, _, _, _) =>
  }
}

/** Building an overlay plan, and where each operation ends up. */
module OverlayPlans {
  import opened Checked
  import opened FiniteSets
  import opened Aliases
  import opened Overlay
  import opened SpanLayout

  // ----- bases in name order -----

  function InsertBase(x: BaseTensor, s: seq<BaseTensor>): seq<BaseTensor> {
    if s == [] || NameLe(x.name, s[0].name) then [x] + s else [s[0]] + InsertBase(x, s[1..])
  }

  function SortBases(s: seq<BaseTensor>): seq<BaseTensor> {
    if s == [] then [] else InsertBase(s[0], SortBases(s[1..]))
  }

  predicate NameOrder(s: seq<BaseTensor>) {
    |s| <= 1 || (NameLe(s[0].name, s[1].name) && NameOrder(s[1..]))
  }

  lemma {:induction false} InsertBaseKeeps(x: BaseTensor, s: seq<BaseTensor>)
    requires NameOrder(s)
    ensures NameOrder(InsertBase(x, s)) && multiset(InsertBase(x, s)) == multiset([x]) + multiset(s)
  {
    if s != [] && !NameLe(x.name, s[0].name) {
      NameLeTotal(x.name, s[0].name);
      InsertBaseKeeps(x, s[1..]);
      assert InsertBase(x, s)[1..] == InsertBase(x, s[1..]);
      assert s == [s[0]] + s[1..];
    } else {
      assert InsertBase(x, s)[1..] == s;
    }
  }

  /** Sorting keeps every base and orders them by name. */
  lemma {:induction false} SortBasesSorts(s: seq<BaseTensor>)
    ensures NameOrder(SortBases(s)) && multiset(SortBases(s)) == multiset(s)
  {
    if s != [] {
      SortBasesSorts(s[1..]);
      InsertBaseKeeps(s[0], SortBases(s[1..]));
      assert s == [s[0]] + s[1..];
    }
  }

  lemma {:induction false} NameLeAntisymmetric(a: Name, b: Name)
    requires NameLe(a, b) && NameLe(b, a)
    ensures a == b
  {
    if a != [] {
      NameLeAntisymmetric(a[1..], b[1..]);
      assert a == [a[0]] + a[1..] && b == [b[0]] + b[1..];
    }
  }

  lemma {:induction false} NameLeTransitive(a: Name, b: Name, c: Name)
    requires NameLe(a, b) && NameLe(b, c)
    ensures NameLe(a, c)
  {
    if a != [] && a[0] == b[0] && b[0] == c[0] {
      NameLeTransitive(a[1..], b[1..], c[1..]);
    }
  }

  lemma {:induction false} HeadIsLeast(s: seq<BaseTensor>, i: nat)
    requires NameOrder(s) && 0 < i < |s|
    ensures NameLe(s[0].name, s[1].name) && NameLe(s[1].name, s[i].name)
  {
    if i == 1 {
      NameLeTotal(s[1].name, s[1].name);
    } else {
      HeadIsLeast(s[1..], i - 1);
      NameLeTransitive(s[1].name, s[2].name, s[i].name);
    }
  }

  predicate NeighboursDiffer(s: seq<BaseTensor>) {
    |s| <= 1 || (s[0].name != s[1].name && NeighboursDiffer(s[1..]))
  }

  /** In name order, comparing neighbours finds every duplicate. */
  lemma {:induction false} NeighboursDecideDistinct(s: seq<BaseTensor>)
    requires NameOrder(s)
    ensures NeighboursDiffer(s) <==> DistinctNames(s)
  {
    if |s| > 1 {
      var rest := s[1..];
      NeighboursDecideDistinct(rest);
      if NeighboursDiffer(s) {
        forall i, j | 0 <= i < j < |s|
          ensures s[i].name != s[j].name
        {
          if i > 0 {
            assert rest[i - 1].name != rest[j - 1].name;
          } else {
            HeadIsLeast(s, j);
            if s[0].name == s[j].name {
              NameLeAntisymmetric(s[0].name, s[1].name);
            }
          }
        }
      }
      if DistinctNames(s) {
        forall i, j | 0 <= i < j < |rest|
          ensures rest[i].name != rest[j].name
        {
          assert s[i + 1].name != s[j + 1].name;
        }
      }
    }
  }

  method HasDuplicate(s: seq<BaseTensor>) returns (found: bool)
    ensures found == !NeighboursDiffer(s)
  {
    var k := 0;
    assert s[0..] == s;
    while k + 1 < |s|
      invariant 0 <= k <= |s|
      invariant NeighboursDiffer(s) == NeighboursDiffer(s[k..])
    {
      assert s[k..][1..] == s[k + 1..] && s[k..][0] == s[k] && s[k..][1] == s[k + 1];
      if s[k].name == s[k + 1].name {
        return true;
      }
      k := k + 1;
    }
    return false;
  }

  // ----- building -----

  /** What every plan in circulation satisfies: each base's binding lists exactly the
      operations that resolve to it, in layer-then-index order. */
  ghost predicate Built(plan: Plan) {
    && Acyclic(plan.aliases)
    && Buildable(plan.bases, plan.aliases, plan.layers, plan.policy)
    && |plan.bindings| == |plan.bases|
    && forall b :: 0 <= b < |plan.bases| ==> plan.bindings[b] == BindingOf(plan, b)
  }

  function BindingOf(plan: Plan, b: nat): OverlayBinding
    requires b < |plan.bases|
  {
    OverlayBinding(plan.bases[b], RefsOf(Collected(plan.layers, plan.aliases, plan.bases[b].name)))
  }

  method CheckAliases(g: Graph, bases: seq<BaseTensor>) returns (ok: bool)
    requires Acyclic(g)
    ensures ok == AliasesFit(g, bases)
  {
    hide Resolved, Acyclic, IndexOf;
    var todo := g.Keys;
    while todo != {}
      invariant todo <= g.Keys
      invariant forall alias :: alias in g && alias !in todo ==> AliasFits(g, bases, alias)
      decreases |todo|
    {
      var alias :| alias in todo;
      var canonical := Resolve(g, alias);
      if IsBase(bases, alias) || !IsBase(bases, canonical) {
        assert !AliasFits(g, bases, alias);
        return false;
      }
      SubsetSize(todo - {alias}, todo);
      todo := todo - {alias};
    }
    return true;
  }

  ghost predicate IdsSeen(ids: set<nat>, layers: seq<Layer>) {
    && (forall i :: 0 <= i < |layers| ==> layers[i].id in ids)
    && (forall id :: id in ids ==> exists i :: 0 <= i < |layers| && layers[i].id == id)
  }

  lemma IdsStep(ids: set<nat>, layers: seq<Layer>, k: nat)
    requires k < |layers| && IdsSeen(ids, layers[..k]) && DistinctIds(layers[..k])
    ensures layers[k].id in ids ==> !DistinctIds(layers)
    ensures layers[k].id !in ids ==> IdsSeen(ids + {layers[k].id}, layers[..k + 1]) && DistinctIds(layers[..k + 1])
  {
    var before, after := layers[..k], layers[..k + 1];
    if layers[k].id in ids {
      var i :| 0 <= i < |before| && before[i].id == layers[k].id;
      assert layers[i].id == layers[k].id;
    } else {
      forall i, j | 0 <= i < j < |after|
        ensures after[i].id != after[j].id
      {
        assert before[i].id in ids;
        if j < k {
          assert before[i].id != before[j].id;
        }
      }
      forall id | id in ids + {layers[k].id}
        ensures exists i :: 0 <= i < |after| && after[i].id == id
      {
        if id == layers[k].id {
          assert after[k].id == id;
        } else {
          var i :| 0 <= i < |before| && before[i].id == id;
          assert after[i].id == id;
        }
      }
    }
  }

  lemma PrefixBuildable(bases: seq<BaseTensor>, g: Graph, layers: seq<Layer>, policy: ConflictPolicy, k: nat)
    requires k < |layers|
    requires AllPlaceable(g, bases, AllPlaces(layers)) && NoConflict(policy, g, bases, AllPlaces(layers))
    ensures AllExist(AllPlaces(layers[..k]) + PlacesOf(layers[k]))
    ensures AllPlaceable(g, bases, AllPlaces(layers[..k]) + PlacesOf(layers[k]))
    ensures NoConflict(policy, g, bases, AllPlaces(layers[..k]) + PlacesOf(layers[k]))
  {
    hide AllPlaceable, NoConflict, AllPlaces, PlacesOf;
    assert layers[..k] + [layers[k]] == layers[..k + 1];
    AllPlacesStep(layers[..k], layers[k]);
    assert layers[..k + 1] + layers[k + 1..] == layers;
    AllPlacesConcat(layers[..k + 1], layers[k + 1..]);
    Shorter(bases, g, policy, AllPlaces(layers[..k + 1]), AllPlaces(layers[k + 1..]));
  }

  ghost predicate TooLong(layers: seq<Layer>) {
    exists i :: 0 <= i < |layers| && |layers[i].operations| > U32_MAX + 1
  }

  function Empties(n: nat): (s: seq<seq<OperationRef>>)
    ensures |s| == n && forall i :: 0 <= i < n ==> s[i] == []
  {
    if n == 0 then [] else Empties(n - 1) + [[]]
  }

  lemma NothingPlaced(g: Graph, bases: seq<BaseTensor>, policy: ConflictPolicy)
    ensures AllPlaces([]) == [] && AllPlaceable(g, bases, []) && NoConflict(policy, g, bases, [])
    ensures RefsMatch(Empties(|bases|), g, bases, [])
  {
  }

  /** The layer loop over the validated bases. */
  method PlaceLayers(bases: seq<BaseTensor>, g: Graph, layers: seq<Layer>, policy: ConflictPolicy)
    returns (r: Result<seq<seq<OperationRef>>>)
    requires DistinctNames(bases) && Acyclic(g)
    ensures r.Ok? <==> DistinctIds(layers) && AllPlaceable(g, bases, AllPlaces(layers))
                       && NoConflict(policy, g, bases, AllPlaces(layers))
    ensures r.Ok? ==> RefsMatch(r.value, g, bases, AllPlaces(layers))
    ensures r.Err? ==> r == Err(Binding) || (r == Err(ResourceLimit) && TooLong(layers))
  {
    hide AllPlaceable, NoConflict, RefsMatch, AllPlaces, PlacesOf, Acyclic, DistinctNames, IdsSeen, DistinctIds;
    var refs := Empties(|bases|);
    var ids: set<nat> := {};
    var k := 0;
    NothingPlaced(g, bases, policy);
    NoIds();
    assert layers[..0] == [];
    while k < |layers|
      invariant 0 <= k <= |layers|
      invariant IdsSeen(ids, layers[..k]) && DistinctIds(layers[..k])
      invariant AllPlaceable(g, bases, AllPlaces(layers[..k])) && NoConflict(policy, g, bases, AllPlaces(layers[..k]))
      invariant RefsMatch(refs, g, bases, AllPlaces(layers[..k]))
    {
      var layer := layers[k];
      IdsStep(ids, layers, k);
      if layer.id in ids {
        return Err(Binding);
      }
      ids := ids + {layer.id};
      var placed := PlaceLayer(bases, g, policy, layer, AllPlaces(layers[..k]), refs);
      if placed.Err? {
        if AllPlaceable(g, bases, AllPlaces(layers)) && NoConflict(policy, g, bases, AllPlaces(layers)) {
          PrefixBuildable(bases, g, layers, policy, k);
        }
        return placed;
      }
      assert layers[..k] + [layers[k]] == layers[..k + 1];
      AllPlacesStep(layers[..k], layers[k]);
      refs := placed.value;
      k := k + 1;
    }
    assert layers[..k] == layers;
    return Ok(refs);
  }

  lemma NoIds()
    ensures IdsSeen({}, []) && DistinctIds([])
  {
  }

  /** Planning accepts exactly the buildable inputs; a built plan binds every base, in name
      order, to the operations that resolve to it. */
  method Build(bases: seq<BaseTensor>, aliases: Graph, layers: seq<Layer>, policy: ConflictPolicy, mode: CompositionMode)
    returns (r: Result<Plan>)
    requires Acyclic(aliases)
    ensures r.Ok? <==> Buildable(SortBases(bases), aliases, layers, policy)
    ensures r.Ok? ==> Built(r.value) && r.value.mode == mode && r.value.policy == policy && r.value.aliases == aliases
                      && r.value.layers == layers && r.value.bases == SortBases(bases)
    ensures r.Err? ==> r == Err(Binding) || (r == Err(ResourceLimit) && TooLong(layers))
  {
    hide Acyclic, DistinctNames, DistinctIds, AliasesFit, NoConflict, AllPlaceable, TooLong, NameOrder, NeighboursDiffer;
    hide AllPlaces, RefsMatch, SortBases, RefsOf, Select;
    var sorted := SortBases(bases);
    SortBasesSorts(bases);
    NeighboursDecideDistinct(sorted);
    var duplicate := HasDuplicate(sorted);
    if duplicate {
      return Err(Binding);
    }
    var fit := CheckAliases(aliases, sorted);
    if !fit {
      return Err(Binding);
    }
    var refs :- PlaceLayers(sorted, aliases, layers, policy);
    var bindings := Zip(sorted, refs, aliases, AllPlaces(layers));
    return Ok(Plan(mode, policy, aliases, sorted, layers, bindings));
  }

  method Zip(bases: seq<BaseTensor>, refs: seq<seq<OperationRef>>, ghost g: Graph, ghost ps: seq<Place>)
    returns (bindings: seq<OverlayBinding>)
    requires AllExist(ps) && RefsMatch(refs, g, bases, ps)
    ensures |bindings| == |bases|
    ensures forall b :: 0 <= b < |bases| ==>
              bindings[b] == OverlayBinding(bases[b], RefsOf(Select(ps, g, bases[b].name)))
  {
    bindings := [];
    var b := 0;
    while b < |bases|
      invariant 0 <= b <= |bases| && |bindings| == b
      invariant forall c :: 0 <= c < b ==> bindings[c] == OverlayBinding(bases[c], RefsOf(Select(ps, g, bases[c].name)))
    {
      bindings := bindings + [OverlayBinding(bases[b], refs[b])];
      b := b + 1;
    }
  }

  // ----- every operation is placed once -----

  function Occurrences(refs: seq<OperationRef>, ref: OperationRef): nat {
    if refs == [] then 0
    else Occurrences(refs[..|refs| - 1], ref) + if refs[|refs| - 1] == ref then 1 else 0
  }

  function Times(ps: seq<Place>, g: Graph, name: Name, ref: OperationRef): nat
    requires AllExist(ps)
  {
    Occurrences(RefsOf(Select(ps, g, name)), ref)
  }

  lemma TimesStep(ps: seq<Place>, p: Place, g: Graph, name: Name, ref: OperationRef)
    requires AllExist(ps) && Exists(p)
    ensures AllExist(ps + [p])
    ensures Times(ps + [p], g, name, ref)
            == Times(ps, g, name, ref) + if Targets(g, p, name) && RefAt(p) == ref then 1 else 0
  {
    hide Select, Targets;
    SelectStep(ps, p, g, name);
    if Targets(g, p, name) {
      RefsOfStep(Select(ps, g, name), p);
      var refs := RefsOf(Select(ps, g, name));
      assert (refs + [RefAt(p)])[..|refs|] == refs;
    } else {
      assert Select(ps, g, name) + [] == Select(ps, g, name);
    }
  }

  /** Appending the first `m` operations of a layer adds one occurrence of the references it
      holds, and none of any other. */
  lemma {:induction false} TimesInLayer(ps: seq<Place>, layer: Layer, m: nat, g: Graph, name: Name, ref: OperationRef)
    requires AllExist(ps) && m <= |layer.operations|
    ensures AllExist(ps + PlacesIn(layer, m))
    ensures Times(ps + PlacesIn(layer, m), g, name, ref)
            == Times(ps, g, name, ref)
               + if layer.id == ref.layer && ref.index < m && Targets(g, Place(layer, ref.index), name) then 1 else 0
    decreases m
  {
    hide Times, Targets;
    if m == 0 {
      assert ps + PlacesIn(layer, 0) == ps;
    } else {
      TimesInLayer(ps, layer, m - 1, g, name, ref);
      var p := Place(layer, m - 1);
      NextPlace(layer, m - 1, ps);
      TimesStep(ps + PlacesIn(layer, m - 1), p, g, name, ref);
    }
  }

  lemma {:induction false} TimesOfOther(layers: seq<Layer>, g: Graph, name: Name, ref: OperationRef)
    requires forall l :: 0 <= l < |layers| ==> layers[l].id != ref.layer
    ensures Times(AllPlaces(layers), g, name, ref) == 0
  {
    if layers != [] {
      var n := |layers| - 1;
      TimesOfOther(layers[..n], g, name, ref);
      hide Times, Targets;
      TimesInLayer(AllPlaces(layers[..n]), layers[n], |layers[n].operations|, g, name, ref);
    }
  }

  lemma {:induction false} TimesOfOne(layers: seq<Layer>, l: nat, i: nat, g: Graph, name: Name)
    requires DistinctIds(layers) && l < |layers| && i < |layers[l].operations|
    ensures Times(AllPlaces(layers), g, name, OperationRef(layers[l].id, i))
            == if Targets(g, Place(layers[l], i), name) then 1 else 0
  {
    var n := |layers| - 1;
    var front, ref := layers[..n], OperationRef(layers[l].id, i);
    forall a, b | 0 <= a < b < |front|
      ensures front[a].id != front[b].id
    {
      assert layers[a].id != layers[b].id;
    }
    assert l < n ==> layers[n].id != ref.layer;
    if l < n {
      TimesOfOne(front, l, i, g, name);
    } else {
      TimesOfOther(front, g, name, ref);
    }
    hide Times, Targets;
    TimesInLayer(AllPlaces(front), layers[n], |layers[n].operations|, g, name, ref);
  }

  /** In a built plan every operation of every layer is referenced by exactly one binding, the
      one of the base its target resolves to, and exactly once there. */
  lemma OperationPlacedOnce(plan: Plan, l: nat, i: nat, b: nat)
    requires Built(plan) && l < |plan.layers| && i < |plan.layers[l].operations| && b < |plan.bases|
    ensures Occurrences(plan.bindings[b].operations, OperationRef(plan.layers[l].id, i))
            == if Resolved(plan.aliases, plan.layers[l].operations[i].target) == plan.bases[b].name then 1 else 0
    ensures IsBase(plan.bases, Resolved(plan.aliases, plan.layers[l].operations[i].target))
  {
    hide AllPlaces, Resolved, Select;
    TimesOfOne(plan.layers, l, i, plan.aliases, plan.bases[b].name);
    InAllPlaces(plan.layers, l, i);
  }

  lemma {:induction false} InAllPlaces(layers: seq<Layer>, l: nat, i: nat)
    requires l < |layers| && i < |layers[l].operations|
    ensures exists q :: 0 <= q < |AllPlaces(layers)| && AllPlaces(layers)[q] == Place(layers[l], i)
  {
    var n := |layers| - 1;
    var front := AllPlaces(layers[..n]);
    if l == n {
      assert AllPlaces(layers)[|front| + i] == Place(layers[l], i);
    } else {
      InAllPlaces(layers[..n], l, i);
      var q :| 0 <= q < |front| && front[q] == Place(layers[l], i);
      assert AllPlaces(layers)[q] == Place(layers[l], i);
    }
  }

  /** A binding holds nothing but references to operations of the plan. */
  lemma {:induction false} NothingInvented(layers: seq<Layer>, g: Graph, name: Name, ref: OperationRef)
    ensures Times(AllPlaces(layers), g, name, ref) > 0 ==>
              exists l :: 0 <= l < |layers| && layers[l].id == ref.layer && ref.index < |layers[l].operations|
  {
    if layers != [] && Times(AllPlaces(layers), g, name, ref) > 0 {
      var n := |layers| - 1;
      hide Times, Targets;
      TimesInLayer(AllPlaces(layers[..n]), layers[n], |layers[n].operations|, g, name, ref);
      NothingInvented(layers[..n], g, name, ref);
      if Times(AllPlaces(layers[..n]), g, name, ref) > 0 {
        var l :| 0 <= l < n && layers[..n][l].id == ref.layer && ref.index < |layers[..n][l].operations|;
        assert layers[l].id == ref.layer;
      } else {
        assert layers[n].id == ref.layer;
      }
    }
  }
}

/** Exact-name alias graphs: construction, cycle detection and resolution. */
module Aliases {
  import opened Checked
  import opened FiniteSets

  type Name = seq<nat>

  datatype Alias = Alias(alias: Name, target: Name)

  type Graph = map<Name, Name>

  /** The name reached after following exactly `k` aliases, if the chain is that long. */
  function Follow(g: Graph, name: Name, k: nat): Option<Name>
    decreases k
  {
    if k == 0 then Some(name)
    else if name in g then Follow(g, g[name], k - 1)
    else None
  }

  ghost predicate Acyclic(g: Graph) {
    forall name, k: nat :: k > 0 ==> Follow(g, name, k) != Some(name)
  }

  lemma {:induction false} FollowAdd(g: Graph, name: Name, j: nat, k: nat)
    requires Follow(g, name, j).Some?
    ensures Follow(g, name, j + k) == Follow(g, Follow(g, name, j).value, k)
    decreases j
  {
    if j > 0 {
      FollowAdd(g, g[name], j - 1, k);
    }
  }

  lemma {:induction false} FollowPrefix(g: Graph, name: Name, j: nat, k: nat)
    requires j <= k && Follow(g, name, k).Some?
    ensures Follow(g, name, j).Some? && (j < k ==> Follow(g, name, j).value in g)
    decreases j
  {
    if j > 0 {
      FollowPrefix(g, g[name], j - 1, k - 1);
    }
  }

  /** The names passed in the first `k` steps. */
  function Passed(g: Graph, name: Name, k: nat): set<Name>
    decreases k
  {
    if k == 0 then {}
    else if name in g then {name} + Passed(g, g[name], k - 1)
    else {}
  }

  /** Every passed name was met at some step. */
  lemma {:induction false} PassedStep(g: Graph, name: Name, k: nat, x: Name) returns (j: nat)
    requires x in Passed(g, name, k)
    ensures j < k && Follow(g, name, j) == Some(x)
    decreases k
  {
    if x == name {
      j := 0;
    } else {
      var i := PassedStep(g, g[name], k - 1, x);
      j := i + 1;
    }
  }

  lemma {:induction false} PassedKeys(g: Graph, name: Name, k: nat)
    ensures Passed(g, name, k) <= g.Keys
    decreases k
  {
    if k > 0 && name in g {
      PassedKeys(g, g[name], k - 1);
    }
  }

  lemma {:induction false} PassedGrows(g: Graph, name: Name, k: nat)
    requires Follow(g, name, k + 1).Some?
    ensures Follow(g, name, k).Some? && Passed(g, name, k + 1) == Passed(g, name, k) + {Follow(g, name, k).value}
    decreases k
  {
    FollowPrefix(g, name, k, k + 1);
    if k > 0 {
      PassedGrows(g, g[name], k - 1);
    }
  }

  lemma NotPassedAgain(g: Graph, name: Name, k: nat)
    requires Acyclic(g) && name in g
    ensures name !in Passed(g, g[name], k)
  {
    if name in Passed(g, g[name], k) {
      var j := PassedStep(g, g[name], k, name);
      CycleOf(g, name, j);
    }
  }

  lemma CycleOf(g: Graph, name: Name, j: nat)
    requires name in g && Follow(g, g[name], j) == Some(name)
    ensures !Acyclic(g)
  {
    assert Follow(g, name, j + 1) == Some(name);
  }

  /** Without cycles the passed names are all different. */
  lemma {:induction false} PassedCount(g: Graph, name: Name, k: nat)
    requires Acyclic(g) && Follow(g, name, k).Some?
    ensures |Passed(g, name, k)| == k
    decreases k
  {
    if k > 0 {
      PassedCount(g, g[name], k - 1);
      NotPassedAgain(g, name, k - 1);
    }
  }

  /** No chain of an acyclic graph is longer than the number of aliases. */
  lemma ChainBound(g: Graph, name: Name, k: nat)
    requires Acyclic(g) && Follow(g, name, k).Some?
    ensures k <= |g.Keys|
  {
    PassedCount(g, name, k);
    PassedKeys(g, name, k);
    SubsetSize(Passed(g, name, k), g.Keys);
  }

  /** A chain that comes back to its start never ends. */
  lemma {:induction false} LoopsForever(g: Graph, name: Name, period: nat, n: nat)
    requires period > 0 && Follow(g, name, period) == Some(name)
    ensures Follow(g, name, n).Some?
  {
    if n < period {
      FollowPrefix(g, name, n, period);
    } else {
      LoopsForever(g, name, period, n - period);
      FollowAdd(g, name, period, n - period);
    }
  }

  /** Every chain from the start of an entry ends after finitely many aliases. */
  ghost predicate ChainEnds(g: Graph, start: Name) {
    exists n: nat :: Follow(g, start, n).None?
  }

  lemma EndingChainsMeanAcyclic(g: Graph)
    requires forall start :: start in g ==> ChainEnds(g, start)
    ensures Acyclic(g)
  {
    forall name, k: nat | k > 0
      ensures Follow(g, name, k) != Some(name)
    {
      if Follow(g, name, k) == Some(name) {
        var n: nat :| Follow(g, name, n).None?;
        LoopsForever(g, name, k, n);
        assert false;
      }
    }
  }

  /** Walks one chain and reports whether it meets a name twice. */
  method ChainRepeats(g: Graph, start: Name) returns (repeats: bool)
    ensures repeats ==> !Acyclic(g)
    ensures !repeats ==> ChainEnds(g, start)
  {
    var seen: set<Name> := {};
    var current := start;
    ghost var n: nat := 0;
    while current in g
      invariant Follow(g, start, n) == Some(current)
      invariant seen == Passed(g, start, n) && seen <= g.Keys
      decreases |g.Keys - seen|
    {
      if current in seen {
        ghost var j := PassedStep(g, start, n, current);
        FollowAdd(g, start, j, n - j);
        assert Follow(g, current, n - j) == Some(current);
        return true;
      }
      FollowAdd(g, start, n, 1);
      assert Follow(g, current, 1) == Some(g[current]);
      PassedGrows(g, start, n);
      SubsetSize(g.Keys - (seen + {current}), g.Keys - seen);
      assert current in g.Keys - seen;
      seen := seen + {current};
      current := g[current];
      n := n + 1;
    }
    FollowAdd(g, start, n, 1);
    assert Follow(g, start, n + 1).None?;
    return false;
  }

  /** The cycle check starts one walk at every alias. */
  method ValidateAliasCycles(g: Graph) returns (r: Result<()>)
    ensures r == if Acyclic(g) then Ok(()) else Err(Binding)
  {
    var todo := g.Keys;
    while todo != {}
      invariant todo <= g.Keys
      invariant forall start :: start in g && start !in todo ==> ChainEnds(g, start)
      decreases |todo|
    {
      var start :| start in todo;
      var repeats := ChainRepeats(g, start);
      if repeats {
        return Err(Binding);
      }
      SubsetSize(todo - {start}, todo);
      todo := todo - {start};
    }
    EndingChainsMeanAcyclic(g);
    return Ok(());
  }

  // ----- construction -----

  ghost predicate DistinctAliases(aliases: seq<Alias>) {
    forall i, j :: 0 <= i < j < |aliases| ==> aliases[i].alias != aliases[j].alias
  }

  /** The graph holds exactly the given aliases. */
  ghost predicate Holds(g: Graph, aliases: seq<Alias>) {
    && (forall i :: 0 <= i < |aliases| ==> aliases[i].alias in g && g[aliases[i].alias] == aliases[i].target)
    && (forall name :: name in g ==> exists i :: 0 <= i < |aliases| && aliases[i].alias == name)
  }

  lemma HoldsOne(g: Graph, h: Graph, aliases: seq<Alias>)
    requires Holds(g, aliases) && Holds(h, aliases)
    ensures g == h
  {
    forall name
      ensures name in g <==> name in h
      ensures name in g ==> g[name] == h[name]
    {
      if name in g {
        var i :| 0 <= i < |aliases| && aliases[i].alias == name;
      }
      if name in h {
        var i :| 0 <= i < |aliases| && aliases[i].alias == name;
      }
    }
  }

  /** There is a graph that holds the aliases and has no cycle. */
  ghost predicate AcyclicAliases(aliases: seq<Alias>) {
    exists g :: Holds(g, aliases) && Acyclic(g)
  }

  lemma HoldsStep(g: Graph, aliases: seq<Alias>, k: nat)
    requires k < |aliases| && Holds(g, aliases[..k]) && aliases[k].alias !in g
    ensures Holds(g[aliases[k].alias := aliases[k].target], aliases[..k + 1])
  {
    var h, done := g[aliases[k].alias := aliases[k].target], aliases[..k + 1];
    forall i | 0 <= i < |done|
      ensures done[i].alias in h && h[done[i].alias] == done[i].target
    {
      if i < k {
        assert done[i] == aliases[..k][i];
      }
    }
    forall name | name in h
      ensures exists i :: 0 <= i < |done| && done[i].alias == name
    {
      if name == aliases[k].alias {
        assert done[k].alias == name;
      } else {
        var i :| 0 <= i < k && aliases[..k][i].alias == name;
        assert done[i].alias == name;
      }
    }
  }

  /** Construction accepts exactly the duplicate-free acyclic alias lists. */
  method NewTable(aliases: seq<Alias>) returns (r: Result<Graph>)
    ensures r.Ok? <==> DistinctAliases(aliases) && AcyclicAliases(aliases)
    ensures r.Ok? ==> Holds(r.value, aliases) && Acyclic(r.value)
    ensures r.Err? ==> r == Err(Binding)
  {
    var g: Graph := map[];
    var k := 0;
    while k < |aliases|
      invariant 0 <= k <= |aliases|
      invariant Holds(g, aliases[..k]) && DistinctAliases(aliases[..k])
    {
      var a := aliases[k];
      if a.alias == a.target {
        SelfAliasIsCyclic(aliases, k);
        return Err(Binding);
      }
      if a.alias in g {
        ghost var i :| 0 <= i < k && aliases[..k][i].alias == a.alias;
        assert aliases[i].alias == aliases[k].alias;
        return Err(Binding);
      }
      HoldsStep(g, aliases, k);
      DistinctStep(g, aliases, k);
      g := g[a.alias := a.target];
      k := k + 1;
    }
    assert aliases[..k] == aliases;
    OnlyGraph(g, aliases);
    var checked := ValidateAliasCycles(g);
    if checked.Err? {
      return Err(Binding);
    }
    return Ok(g);
  }

  lemma OnlyGraph(g: Graph, aliases: seq<Alias>)
    requires Holds(g, aliases)
    ensures Acyclic(g) <==> AcyclicAliases(aliases)
  {
    if h :| Holds(h, aliases) && Acyclic(h) {
      HoldsOne(g, h, aliases);
    }
  }

  lemma DistinctStep(g: Graph, aliases: seq<Alias>, k: nat)
    requires k < |aliases| && Holds(g, aliases[..k]) && DistinctAliases(aliases[..k]) && aliases[k].alias !in g
    ensures DistinctAliases(aliases[..k + 1])
  {
    var before, done := aliases[..k], aliases[..k + 1];
    forall i, j | 0 <= i < j < |done|
      ensures done[i].alias != done[j].alias
    {
      assert before[i].alias in g;
      if j < k {
        assert before[i].alias != before[j].alias;
      }
    }
  }

  lemma SelfAliasIsCyclic(aliases: seq<Alias>, k: nat)
    requires k < |aliases| && aliases[k].alias == aliases[k].target
    ensures !AcyclicAliases(aliases)
  {
    forall g | Holds(g, aliases)
      ensures !Acyclic(g)
    {
      assert Follow(g, aliases[k].alias, 1) == Some(aliases[k].alias);
    }
  }

  // ----- resolution -----

  /** The canonical name: where the chain ends, within the bound every chain respects. */
  function Walk(g: Graph, name: Name, bound: nat): Name
    decreases bound
  {
    if name !in g || bound == 0 then name else Walk(g, g[name], bound - 1)
  }

  function Resolved(g: Graph, name: Name): Name {
    Walk(g, name, |g.Keys|)
  }

  lemma {:induction false} WalkEnd(g: Graph, name: Name, n: nat, bound: nat)
    requires Follow(g, name, n).Some? && Follow(g, name, n).value !in g && n <= bound
    ensures Walk(g, name, bound) == Follow(g, name, n).value
    decreases n
  {
    if n > 0 {
      WalkEnd(g, g[name], n - 1, bound - 1);
    }
  }

  /** The resolution loop ends at the canonical name. */
  method Resolve(g: Graph, name: Name) returns (canonical: Name)
    requires Acyclic(g)
    ensures canonical == Resolved(g, name)
    ensures canonical !in g && exists n: nat :: Follow(g, name, n) == Some(canonical)
  {
    var current := name;
    ghost var n: nat := 0;
    while current in g
      invariant Follow(g, name, n) == Some(current) && n <= |g.Keys|
      decreases |g.Keys| - n
    {
      FollowAdd(g, name, n, 1);
      assert Follow(g, current, 1) == Some(g[current]);
      ChainBound(g, name, n + 1);
      current := g[current];
      n := n + 1;
    }
    WalkEnd(g, name, n, |g.Keys|);
    return current;
  }

  lemma {:induction false} ChainEndExists(g: Graph, name: Name, n: nat) returns (last: nat)
    requires Acyclic(g) && Follow(g, name, n).Some?
    ensures Follow(g, name, last).Some? && Follow(g, name, last).value !in g
    decreases |g.Keys| + 1 - n
  {
    var current := Follow(g, name, n).value;
    ChainBound(g, name, n);
    if current in g {
      FollowAdd(g, name, n, 1);
      assert Follow(g, current, 1) == Some(g[current]);
      ChainBound(g, name, n + 1);
      last := ChainEndExists(g, name, n + 1);
    } else {
      last := n;
    }
  }

  lemma ResolvedIsEnd(g: Graph, name: Name) returns (n: nat)
    requires Acyclic(g)
    ensures Follow(g, name, n) == Some(Resolved(g, name)) && Resolved(g, name) !in g && n <= |g.Keys|
  {
    n := ChainEndExists(g, name, 0);
    ChainBound(g, name, n);
    WalkEnd(g, name, n, |g.Keys|);
  }

  /** Resolution is idempotent, is the identity on names that are not aliases, and gives all
      names along one chain the same canonical name. */
  lemma ResolutionLaws(g: Graph, name: Name, k: nat)
    requires Acyclic(g) && Follow(g, name, k).Some?
    ensures Resolved(g, name) !in g
    ensures Resolved(g, Resolved(g, name)) == Resolved(g, name)
    ensures name !in g ==> Resolved(g, name) == name
    ensures Resolved(g, Follow(g, name, k).value) == Resolved(g, name)
  {
    var n := ResolvedIsEnd(g, name);
    var middle := Follow(g, name, k).value;
    var m := ResolvedIsEnd(g, middle);
    FollowAdd(g, name, k, m);
    ChainBound(g, name, k + m);
    WalkEnd(g, name, k + m, |g.Keys|);
  }
}

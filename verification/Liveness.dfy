/** Liveness accounting of graph-owned allocations: the mutable schedule, the functions it is
    proved against, and its invariant. */
module Liveness {
  import opened Checked
  import opened FiniteSets
  import opened Graphs

  datatype Alloc = Alloc(bytes: nat, references: nat)

  /** `values` maps a live value to its allocation; `None` is an external mapping. */
  datatype Schedule = Schedule(
    uses: map<ValueRef, nat>,
    values: map<ValueRef, Option<nat>>,
    allocations: map<nat, Alloc>,
    next: nat,
    live: nat,
    peak: nat)

  // ---------- Steps ----------

  function CreateAllocation(s: Schedule, bytes: nat): Result<(Schedule, nat)> {
    var next :- CheckedAdd(s.next, 1);
    var live :- CheckedAdd(s.live, bytes);
    Ok((s.(next := next, live := live, peak := Max(s.peak, live),
           allocations := s.allocations[s.next := Alloc(bytes, 0)]), s.next))
  }

  function InsertValue(s: Schedule, v: ValueRef, allocation: Option<nat>): Result<Schedule> {
    if v in s.values then Err(Integrity)
    else if allocation.None? then Ok(s.(values := s.values[v := None]))
    else if allocation.value !in s.allocations then Err(Integrity)
    else
      var state := s.allocations[allocation.value];
      var references :- CheckedAdd(state.references, 1);
      Ok(s.(values := s.values[v := allocation],
            allocations := s.allocations[allocation.value := state.(references := references)]))
  }

  function ObserveTransient(s: Schedule, scratch: nat): Result<Schedule> {
    var withScratch :- CheckedAdd(s.live, scratch);
    Ok(s.(peak := Max(s.peak, withScratch)))
  }

  function RemoveValue(s: Schedule, v: ValueRef): Result<Schedule> {
    if v !in s.values then Err(Integrity)
    else
      var allocation, values := s.values[v], s.values - {v};
      if allocation.None? then Ok(s.(values := values))
      else if allocation.value !in s.allocations then Err(Integrity)
      else
        var state := s.allocations[allocation.value];
        if state.references == 0 then Err(Integrity)
        else if state.references > 1 then
          Ok(s.(values := values,
                allocations := s.allocations[allocation.value := state.(references := state.references - 1)]))
        else if s.live < state.bytes then Err(Integrity)
        else Ok(s.(values := values, allocations := s.allocations - {allocation.value}, live := s.live - state.bytes))
  }

  /** One use of a value; the flag tells that it was the last one. */
  function ConsumeValue(s: Schedule, v: ValueRef): Result<(Schedule, bool)> {
    if v !in s.uses then Err(Integrity)
    else if s.uses[v] == 0 then Err(Integrity)
    else
      var t := s.(uses := s.uses[v := s.uses[v] - 1]);
      if t.uses[v] == 0 then
        var u :- RemoveValue(t, v);
        Ok((u, true))
      else Ok((t, false))
  }

  function ConsumeInputs(s: Schedule, refs: seq<ValueRef>): Result<Schedule>
    decreases |refs|
  {
    if refs == [] then Ok(s)
    else
      var t :- ConsumeValue(s, refs[0]);
      ConsumeInputs(t.0, refs[1..])
  }

  function RemainingUses(s: Schedule, v: ValueRef): nat {
    if v in s.uses then s.uses[v] else 0
  }

  function RemoveUnused(s: Schedule, refs: seq<ValueRef>): Result<Schedule>
    decreases |refs|
  {
    if refs == [] then Ok(s)
    else if RemainingUses(s, refs[0]) == 0 then
      var t :- RemoveValue(s, refs[0]);
      RemoveUnused(t, refs[1..])
    else RemoveUnused(s, refs[1..])
  }

  /** Bytes of the allocation that holds a value. */
  function AllocationBytes(s: Schedule, v: ValueRef): nat {
    if v in s.values && s.values[v].Some? && s.values[v].value in s.allocations
    then s.allocations[s.values[v].value].bytes else 0
  }

  function ScratchExcluding(s: Schedule, output: ValueRef): Result<nat> {
    if s.peak < AllocationBytes(s, output) then Err(Integrity) else Ok(s.peak - AllocationBytes(s, output))
  }

  // ---------- The mutable schedule ----------

  class LivenessSchedule {
    var remainingUses: map<ValueRef, nat>
    var values: map<ValueRef, Option<nat>>
    var allocations: map<nat, Alloc>
    var nextAllocation: nat
    var liveBytes: nat
    var peakBytes: nat

    ghost function State(): Schedule
      reads this
    {
      Schedule(remainingUses, values, allocations, nextAllocation, liveBytes, peakBytes)
    }

    constructor (uses: map<ValueRef, nat>, inputs: map<ValueRef, Option<nat>>)
      ensures State() == Schedule(uses, inputs, map[], 0, 0, 0)
    {
      remainingUses, values, allocations := uses, inputs, map[];
      nextAllocation, liveBytes, peakBytes := 0, 0, 0;
    }

    method Create(bytes: nat) returns (r: Result<nat>)
      modifies this
      ensures var spec := CreateAllocation(old(State()), bytes);
              (spec.Ok? ==> r == Ok(spec.value.1) && State() == spec.value.0) && (spec.Err? ==> r == Err(spec.error))
    {
      var allocation := nextAllocation;
      nextAllocation :- CheckedAdd(nextAllocation, 1);
      liveBytes :- CheckedAdd(liveBytes, bytes);
      peakBytes := Max(peakBytes, liveBytes);
      allocations := allocations[allocation := Alloc(bytes, 0)];
      return Ok(allocation);
    }

    method Insert(v: ValueRef, allocation: Option<nat>) returns (r: Result<()>)
      modifies this
      ensures var spec := InsertValue(old(State()), v, allocation);
              (spec.Ok? ==> r.Ok? && State() == spec.value) && (spec.Err? ==> r == Err(spec.error))
    {
      if v in values {
        return Err(Integrity);
      }
      if allocation.Some? {
        if allocation.value !in allocations {
          return Err(Integrity);
        }
        var state := allocations[allocation.value];
        var references :- CheckedAdd(state.references, 1);
        allocations := allocations[allocation.value := state.(references := references)];
      }
      values := values[v := allocation];
      return Ok(());
    }

    method Observe(scratch: nat) returns (r: Result<()>)
      modifies this
      ensures var spec := ObserveTransient(old(State()), scratch);
              (spec.Ok? ==> r.Ok? && State() == spec.value) && (spec.Err? ==> r == Err(spec.error))
    {
      var withScratch: nat :- CheckedAdd(liveBytes, scratch);
      peakBytes := Max(peakBytes, withScratch);
      return Ok(());
    }

    method Remove(v: ValueRef) returns (r: Result<()>)
      modifies this
      ensures var spec := RemoveValue(old(State()), v);
              (spec.Ok? ==> r.Ok? && State() == spec.value) && (spec.Err? ==> r == Err(spec.error))
    {
      if v !in values {
        return Err(Integrity);
      }
      var allocation := values[v];
      values := values - {v};
      if allocation.None? {
        return Ok(());
      }
      if allocation.value !in allocations {
        return Err(Integrity);
      }
      var state := allocations[allocation.value];
      if state.references == 0 {
        return Err(Integrity);
      }
      allocations := allocations[allocation.value := state.(references := state.references - 1)];
      if state.references - 1 == 0 {
        allocations := allocations - {allocation.value};
        if liveBytes < state.bytes {
          return Err(Integrity);
        }
        liveBytes := liveBytes - state.bytes;
      }
      return Ok(());
    }

    method Consume(v: ValueRef) returns (r: Result<bool>)
      modifies this
      ensures var spec := ConsumeValue(old(State()), v);
              (spec.Ok? ==> r == Ok(spec.value.1) && State() == spec.value.0) && (spec.Err? ==> r == Err(spec.error))
    {
      hide RemoveValue;
      if v !in remainingUses {
        return Err(Integrity);
      }
      if remainingUses[v] == 0 {
        return Err(Integrity);
      }
      remainingUses := remainingUses[v := remainingUses[v] - 1];
      if remainingUses[v] == 0 {
        var _ :- Remove(v);
        return Ok(true);
      }
      return Ok(false);
    }

    method ConsumeAll(refs: seq<ValueRef>) returns (r: Result<()>)
      modifies this
      ensures var spec := ConsumeInputs(old(State()), refs);
              (spec.Ok? ==> r.Ok? && State() == spec.value) && (spec.Err? ==> r == Err(spec.error))
    {
      hide ConsumeValue;
      var i := 0;
      while i < |refs|
        invariant 0 <= i <= |refs|
        invariant ConsumeInputs(old(State()), refs) == ConsumeInputs(State(), refs[i..])
      {
        assert refs[i..][1..] == refs[i + 1..];
        var _ :- Consume(refs[i]);
        i := i + 1;
      }
      return Ok(());
    }

    method RemoveAllUnused(refs: seq<ValueRef>) returns (r: Result<()>)
      modifies this
      ensures var spec := RemoveUnused(old(State()), refs);
              (spec.Ok? ==> r.Ok? && State() == spec.value) && (spec.Err? ==> r == Err(spec.error))
    {
      hide RemoveValue;
      var i := 0;
      while i < |refs|
        invariant 0 <= i <= |refs|
        invariant RemoveUnused(old(State()), refs) == RemoveUnused(State(), refs[i..])
      {
        assert refs[i..][1..] == refs[i + 1..];
        if refs[i] !in remainingUses || remainingUses[refs[i]] == 0 {
          var _ :- Remove(refs[i]);
        }
        i := i + 1;
      }
      return Ok(());
    }

    method Scratch(output: ValueRef) returns (r: Result<nat>)
      ensures r == ScratchExcluding(State(), output)
    {
      var outputBytes := 0;
      if output in values && values[output].Some? && values[output].value in allocations {
        outputBytes := allocations[values[output].value].bytes;
      }
      if peakBytes < outputBytes {
        return Err(Integrity);
      }
      return Ok(peakBytes - outputBytes);
    }
  }

  // ---------- The invariant ----------

  /** Bytes of the allocations numbered below `n`. */
  function TotalBelow(allocations: map<nat, Alloc>, n: nat): nat {
    if n == 0 then 0
    else TotalBelow(allocations, n - 1) + if n - 1 in allocations then allocations[n - 1].bytes else 0
  }

  /** The live values that one allocation holds. */
  function Holders(values: map<ValueRef, Option<nat>>, a: nat): set<ValueRef> {
    set v | v in values && values[v] == Some(a)
  }

  /** The size of every value, fixed for one graph. */
  type Sizes = ValueRef -> nat

  /** Live bytes are the sum of the live allocations, references count live values, and a
      value's allocation has the value's size. */
  ghost predicate Accounted(s: Schedule, size: Sizes) {
    (forall a :: a in s.allocations ==> a < s.next)
    && (forall v :: v in s.values && s.values[v].Some? ==>
          s.values[v].value in s.allocations && s.allocations[s.values[v].value].bytes == size(v))
    && (forall a :: a in s.allocations ==> s.allocations[a].references == |Holders(s.values, a)| > 0)
    && s.live == TotalBelow(s.allocations, s.next) <= s.peak
  }

  lemma {:induction false} TotalUnchanged(a: map<nat, Alloc>, b: map<nat, Alloc>, n: nat)
    requires forall i :: 0 <= i < n ==> (i in a <==> i in b) && (i in a ==> a[i].bytes == b[i].bytes)
    ensures TotalBelow(a, n) == TotalBelow(b, n)
  {
    if n > 0 {
      TotalUnchanged(a, b, n - 1);
    }
  }

  lemma {:induction false} TotalRemoved(a: map<nat, Alloc>, i: nat, n: nat)
    requires i in a && i < n
    ensures TotalBelow(a, n) == TotalBelow(a - {i}, n) + a[i].bytes
  {
    if i == n - 1 {
      TotalUnchanged(a, a - {i}, n - 1);
    } else {
      TotalRemoved(a, i, n - 1);
    }
  }

  lemma HoldersAfterInsert(values: map<ValueRef, Option<nat>>, v: ValueRef, allocation: Option<nat>, a: nat)
    requires v !in values
    ensures |Holders(values[v := allocation], a)| == |Holders(values, a)| + if allocation == Some(a) then 1 else 0
  {
    if allocation == Some(a) {
      assert Holders(values[v := allocation], a) == Holders(values, a) + {v};
    } else {
      assert Holders(values[v := allocation], a) == Holders(values, a);
    }
  }

  lemma HoldersAfterRemove(values: map<ValueRef, Option<nat>>, v: ValueRef, a: nat)
    requires v in values
    ensures |Holders(values - {v}, a)| == |Holders(values, a)| - if values[v] == Some(a) then 1 else 0
  {
    if values[v] == Some(a) {
      assert Holders(values - {v}, a) == Holders(values, a) - {v};
    } else {
      assert Holders(values - {v}, a) == Holders(values, a);
    }
  }

  /** A number that no live value refers to has no holders. */
  lemma NoHolders(s: Schedule, size: Sizes)
    requires Accounted(s, size)
    ensures Holders(s.values, s.next) == {}
  {
  }

  /** A fresh allocation for a new value. */
  function AddFresh(s: Schedule, v: ValueRef, bytes: nat): Result<Schedule> {
    var created :- CreateAllocation(s, bytes);
    InsertValue(created.0, v, Some(created.1))
  }

  lemma FreshIsAccounted(s: Schedule, v: ValueRef, size: Sizes)
    requires Accounted(s, size) && v !in s.values
    ensures var r := AddFresh(s, v, size(v));
            (r.Ok? <==> s.next + 1 <= U64_MAX && s.live + size(v) <= U64_MAX) && (r.Err? ==> r == Err(ResourceLimit))
            && (r.Ok? ==> Accounted(r.value, size) && r.value.uses == s.uses && r.value.values == s.values[v := Some(s.next)]
                          && r.value.live == s.live + size(v) && r.value.peak == Max(s.peak, s.live + size(v))
                          && r.value.next == s.next + 1)
  {
    hide Holders;
    var r := AddFresh(s, v, size(v));
    NoHolders(s, size);
    if r.Ok? {
      var t := r.value;
      TotalUnchanged(s.allocations, t.allocations, s.next);
      forall a: nat ensures |Holders(t.values, a)| == |Holders(s.values, a)| + if a == s.next then 1 else 0 {
        HoldersAfterInsert(s.values, v, Some(s.next), a);
      }
    }
  }

  lemma AliasIsAccounted(s: Schedule, v: ValueRef, u: ValueRef, size: Sizes)
    requires Accounted(s, size) && v !in s.values && u in s.values && size(v) == size(u)
    ensures var r := InsertValue(s, v, s.values[u]);
            (r.Ok? <==> s.values[u].Some? ==> s.allocations[s.values[u].value].references < U64_MAX)
            && (r.Err? ==> r == Err(ResourceLimit))
            && (r.Ok? ==> Accounted(r.value, size) && r.value.uses == s.uses && r.value.values == s.values[v := s.values[u]]
                          && r.value.live == s.live && r.value.peak == s.peak && r.value.next == s.next)
  {
    hide Holders;
    if s.values[u].Some? {
      SharedIsAccounted(s, v, s.values[u].value, size);
    } else {
      MappedIsAccounted(s, v, size);
    }
  }

  lemma MappedIsAccounted(s: Schedule, v: ValueRef, size: Sizes)
    requires Accounted(s, size) && v !in s.values
    ensures Accounted(s.(values := s.values[v := None]), size)
  {
    hide Holders;
    forall a: nat ensures |Holders(s.values[v := None], a)| == |Holders(s.values, a)| {
      HoldersAfterInsert(s.values, v, None, a);
    }
  }

  lemma SharedIsAccounted(s: Schedule, v: ValueRef, a: nat, size: Sizes)
    requires Accounted(s, size) && v !in s.values && a in s.allocations && size(v) == s.allocations[a].bytes
    ensures var state := s.allocations[a];
            Accounted(s.(values := s.values[v := Some(a)],
                         allocations := s.allocations[a := state.(references := state.references + 1)]), size)
  {
    hide Holders;
    var state := s.allocations[a];
    var t := s.(values := s.values[v := Some(a)],
                allocations := s.allocations[a := state.(references := state.references + 1)]);
    TotalUnchanged(s.allocations, t.allocations, s.next);
    forall b | b in t.allocations ensures t.allocations[b].references == |Holders(t.values, b)| > 0 {
      HoldersAfterInsert(s.values, v, Some(a), b);
    }
  }

  lemma TransientIsAccounted(s: Schedule, scratch: nat, size: Sizes)
    requires Accounted(s, size) && ObserveTransient(s, scratch).Ok?
    ensures Accounted(ObserveTransient(s, scratch).value, size)
  {
  }

  /** Removing a live value never fails. */
  lemma RemoveIsAccounted(s: Schedule, v: ValueRef, size: Sizes)
    requires Accounted(s, size) && v in s.values
    ensures var r := RemoveValue(s, v);
            r.Ok? && Accounted(r.value, size) && r.value.uses == s.uses && r.value.values == s.values - {v}
            && r.value.peak == s.peak && r.value.next == s.next
  {
    hide Holders;
    forall b: nat ensures |Holders(s.values - {v}, b)| == |Holders(s.values, b)| - if s.values[v] == Some(b) then 1 else 0 {
      HoldersAfterRemove(s.values, v, b);
    }
    if s.values[v].Some? {
      ReleaseIsAccounted(s, v, size);
    }
  }

  lemma ReleaseIsAccounted(s: Schedule, v: ValueRef, size: Sizes)
    requires Accounted(s, size) && v in s.values && s.values[v].Some?
    ensures RemoveValue(s, v).Ok? && Accounted(RemoveValue(s, v).value, size)
  {
    hide Holders;
    var a := s.values[v].value;
    TotalRemoved(s.allocations, a, s.next);
    if s.allocations[a].references > 1 {
      TotalUnchanged(s.allocations, RemoveValue(s, v).value.allocations, s.next);
    }
    var t := RemoveValue(s, v).value;
    forall b | b in t.allocations ensures t.allocations[b].references == |Holders(t.values, b)| > 0 {
      HoldersAfterRemove(s.values, v, b);
    }
    forall w | w in t.values && t.values[w].Some? ensures t.values[w].value in t.allocations {
      HolderKeepsAllocation(s, t, v, w, a);
    }
  }

  /** A remaining holder keeps its allocation: the count was above one. */
  lemma HolderKeepsAllocation(s: Schedule, t: Schedule, v: ValueRef, w: ValueRef, a: nat)
    requires v in s.values && s.values[v] == Some(a) && a in s.allocations
    requires s.allocations[a].references == |Holders(s.values, a)|
    requires w in s.values && w != v && s.values[w].Some? && s.values[w].value in s.allocations
    requires s.allocations[a].references > 1 ==> t.allocations.Keys == s.allocations.Keys
    requires t.allocations.Keys >= s.allocations.Keys - {a}
    ensures s.values[w].value in t.allocations
  {
    if s.values[w].value == a {
      assert {v, w} <= Holders(s.values, a);
      SubsetSize({v, w}, Holders(s.values, a));
    }
  }
}

/** The weighted resource budget: permits that share one mutable budget, their promotion and
    their release.  A ghost ledger numbers the live permits. */
module Budget {
  import opened Checked
  import opened ResourceWeights

  class ResourceBudget {
    const limit: Weights
    var used: Weights
    var peaks: Weights
    ghost var ledger: Ledger
    ghost var next: nat

    /** What is used is the sum of the live permits, and it stays within the limit. */
    ghost predicate Valid()
      reads this
    {
      (forall i :: i in ledger ==> i < next) && used == Total(ledger, next)
      && Within(used, peaks) && Within(peaks, limit)
    }

    constructor (limit: Weights)
      ensures Valid() && this.limit == limit && ledger == map[] && used == NO_WEIGHTS
    {
      this.limit := limit;
      used, peaks, ledger, next := NO_WEIGHTS, NO_WEIGHTS, map[], 0;
    }

    /** One pass of the acquiring loop: a permit, nothing while the request does not fit beside
        what is used, or an error when it can never fit. */
    method TryAcquire(requested: Weights) returns (r: Result<Option<ResourcePermit>>)
      requires Valid()
      modifies this
      ensures Valid() && Within(old(peaks), peaks)
      ensures r.Err? <==> !Within(requested, limit)
      ensures r.Ok? ==> (r.value.Some? <==> Within(Plus(old(used), requested), limit))
      ensures r.Ok? && r.value.Some? ==>
                fresh(r.value.value) && r.value.value.budget == this && r.value.value.number == old(next)
                && r.value.value.reserved == requested && next == old(next) + 1
                && ledger == old(ledger)[old(next) := requested] && used == Plus(old(used), requested)
      ensures !(r.Ok? && r.value.Some?) ==> ledger == old(ledger) && used == old(used) && next == old(next)
    {
      if !Fits(NO_WEIGHTS, requested, limit) {
        return Err(ResourceLimit);
      }
      if !Fits(used, requested, limit) {
        return Ok(None);
      }
      TotalSame(ledger, ledger[next := requested], next);
      used := Plus(used, requested);
      peaks := MaxWeights(peaks, used);
      var permit := new ResourcePermit(this, next, requested);
      ledger := ledger[next := requested];
      next := next + 1;
      return Ok(Some(permit));
    }

    /** Gives back part of one permit.  The saturating subtraction never saturates. */
    method Release(released: Weights, ghost number: nat)
      requires Valid() && number in ledger && Within(released, ledger[number])
      modifies this
      ensures Valid() && next == old(next) && peaks == old(peaks)
      ensures ledger == old(ledger)[number := Minus(old(ledger)[number], released)]
      ensures old(used) == Plus(used, released)
    {
      ghost var less := ledger[number := Minus(ledger[number], released)];
      TotalChange(ledger, less, number, next);
      EntryBelowTotal(ledger, number, next);
      used := Minus(used, released);
      ledger := less;
    }

    /** Moves weight of one permit to a new number. */
    ghost method Split(number: nat, moved: Weights)
      requires Valid() && number in ledger && Within(moved, ledger[number])
      modifies `ledger, `next
      ensures Valid() && next == old(next) + 1
      ensures ledger == old(ledger)[number := Minus(old(ledger)[number], moved)][old(next) := moved]
    {
      var less := ledger[number := Minus(ledger[number], moved)];
      TotalChange(ledger, less, number, next);
      TotalSame(less, less[next := moved], next);
      ledger, next := less[next := moved], next + 1;
    }

    /** Forgets an empty permit. */
    ghost method Forget(number: nat)
      requires Valid() && number in ledger && ledger[number] == NO_WEIGHTS
      modifies `ledger
      ensures Valid() && ledger == old(ledger) - {number}
    {
      TotalSame(ledger, ledger - {number}, next);
      ledger := ledger - {number};
    }
  }

  class ResourcePermit {
    const budget: ResourceBudget
    ghost const number: nat
    var reserved: Weights

    constructor (budget: ResourceBudget, ghost number: nat, reserved: Weights)
      ensures this.budget == budget && this.number == number && this.reserved == reserved
    {
      this.budget, this.number, this.reserved := budget, number, reserved;
    }

    ghost predicate Live()
      reads this, budget
    {
      number in budget.ledger && budget.ledger[number] == reserved
    }

    method ReleasePrepared()
      requires budget.Valid() && Live()
      modifies this, budget
      ensures budget.Valid() && Live() && budget.next == old(budget.next)
      ensures reserved == Weights(old(reserved).source, old(reserved).scratch, 0)
      ensures budget.ledger == old(budget.ledger)[number := reserved]
      ensures old(budget.used) == Plus(budget.used, OnlyPrepared(old(reserved).prepared))
    {
      budget.Release(OnlyPrepared(reserved.prepared), number);
      reserved := Weights(reserved.source, reserved.scratch, 0);
    }

    /** Splits the prepared bytes into a permit of their own, when there are any. */
    method SplitPrepared() returns (prepared: Option<ResourcePermit>)
      requires budget.Valid() && Live()
      modifies this, budget`ledger, budget`next
      ensures budget.Valid() && Live() && reserved == Weights(old(reserved).source, old(reserved).scratch, 0)
      ensures prepared.Some? <==> old(reserved).prepared > 0
      ensures prepared.Some? ==>
                fresh(prepared.value) && prepared.value.budget == budget && prepared.value.Live()
                && prepared.value.number == old(budget.next) && budget.next == old(budget.next) + 1
                && prepared.value.reserved == OnlyPrepared(old(reserved).prepared)
                && budget.ledger == old(budget.ledger)[number := reserved][old(budget.next) := prepared.value.reserved]
      ensures prepared.None? ==> budget.ledger == old(budget.ledger) && budget.next == old(budget.next)
    {
      var bytes := reserved.prepared;
      reserved := Weights(reserved.source, reserved.scratch, 0);
      if bytes > 0 {
        ghost var fresh_number := budget.next;
        budget.Split(number, OnlyPrepared(bytes));
        var permit := new ResourcePermit(budget, fresh_number, OnlyPrepared(bytes));
        return Some(permit);
      }
      return None;
    }

    /** Keeps at most the given prepared bytes and gives everything else back. */
    method RetainPrepared(bytes: nat)
      requires budget.Valid() && Live()
      modifies this, budget
      ensures budget.Valid() && Live() && budget.next == old(budget.next)
      ensures reserved == OnlyPrepared(if old(reserved).prepared < bytes then old(reserved).prepared else bytes)
      ensures budget.ledger == old(budget.ledger)[number := reserved]
    {
      var retained := OnlyPrepared(if reserved.prepared < bytes then reserved.prepared else bytes);
      budget.Release(Minus(reserved, retained), number);
      reserved := retained;
    }

    /** The permit goes out of scope. */
    method Drop()
      requires budget.Valid() && Live()
      modifies this, budget
      ensures budget.Valid() && budget.next == old(budget.next)
      ensures budget.ledger == old(budget.ledger) - {number}
      ensures old(budget.used) == Plus(budget.used, old(reserved))
    {
      budget.Release(reserved, number);
      budget.Forget(number);
      reserved := NO_WEIGHTS;
    }
  }

  // ---------- The reservations of one work item ----------

  function SumReserved(permits: seq<ResourcePermit>): Weights
    reads permits
  {
    if permits == [] then NO_WEIGHTS else Plus(SumReserved(permits[..|permits| - 1]), permits[|permits| - 1].reserved)
  }

  ghost function SetOf(permits: seq<ResourcePermit>): set<ResourcePermit> {
    set permit | permit in permits
  }

  ghost predicate Distinct(permits: seq<ResourcePermit>) {
    forall i, j :: 0 <= i < j < |permits| ==> permits[i] != permits[j]
  }

  /** Live permits of one budget, each with its own ledger entry. */
  ghost predicate AllLive(budget: ResourceBudget, permits: set<ResourcePermit>)
    reads budget, permits
  {
    (forall p :: p in permits ==> p.budget == budget && p.Live())
    && forall p, q :: p in permits && q in permits && p.number == q.number ==> p == q
  }

  ghost predicate OnlyPreparedHeld(permits: seq<ResourcePermit>)
    reads permits
  {
    forall p :: p in permits ==> p.reserved == OnlyPrepared(p.reserved.prepared)
  }

  ghost function Numbers(permits: set<ResourcePermit>): set<nat> {
    set p | p in permits :: p.number
  }

  /** Entries that no listed permit owns are the same. */
  ghost predicate OthersSame(before: Ledger, after: Ledger, permits: set<ResourcePermit>) {
    forall n :: n !in Numbers(permits) ==> Held(after, n) == Held(before, n)
  }

  lemma OthersSameTwice(a: Ledger, b: Ledger, c: Ledger, permits: set<ResourcePermit>)
    requires OthersSame(a, b, permits) && OthersSame(b, c, permits)
    ensures OthersSame(a, c, permits)
  {
  }

  lemma OneOfMany(permits: set<ResourcePermit>, permit: ResourcePermit)
    requires permit in permits
    ensures permit.number in Numbers(permits)
  {
  }

  /** Drops the permits of a list. */
  method DropAll(budget: ResourceBudget, permits: seq<ResourcePermit>, ghost all: set<ResourcePermit>)
    requires budget.Valid() && AllLive(budget, all) && SetOf(permits) <= all && Distinct(permits)
    modifies budget, permits
    ensures budget.Valid() && budget.next == old(budget.next) && AllLive(budget, all - SetOf(permits))
    ensures forall p :: p in permits ==> p.number !in budget.ledger
    ensures OthersSame(old(budget.ledger), budget.ledger, SetOf(permits))
    ensures Plus(budget.used, old(SumReserved(permits))) == old(budget.used)
  {
    hide OthersSame;
    ghost var start := budget.ledger;
    assert permits[..0] == [];
    SameOthers(start, SetOf(permits));
    var k := 0;
    while k < |permits|
      invariant 0 <= k <= |permits| && budget.Valid() && budget.next == old(budget.next)
      invariant AllLive(budget, all - SetOf(permits[..k])) && OthersSame(start, budget.ledger, SetOf(permits))
      invariant forall i :: 0 <= i < k ==> permits[i].number !in budget.ledger
      invariant forall i :: k <= i < |permits| ==> permits[i].reserved == old(permits[i].reserved)
      invariant Plus(budget.used, old(SumReserved(permits[..k]))) == old(budget.used)
    {
      var permit := permits[k];
      assert old(SumReserved(permits[..k + 1])) == Plus(old(SumReserved(permits[..k])), old(permit.reserved)) by {
        assert permits[..k + 1][..k] == permits[..k];
      }
      assert permit in all - SetOf(permits[..k]);
      ghost var before := budget.ledger;
      permit.Drop();
      OneChanged(before, budget.ledger, permit, SetOf(permits));
      OthersSameTwice(start, before, budget.ledger, SetOf(permits));
      assert SetOf(permits[..k + 1]) == SetOf(permits[..k]) + {permit};
      k := k + 1;
    }
    assert permits[..k] == permits;
  }

  lemma SameOthers(ledger: Ledger, permits: set<ResourcePermit>)
    ensures OthersSame(ledger, ledger, permits)
  {
  }

  lemma OneChanged(before: Ledger, after: Ledger, permit: ResourcePermit, permits: set<ResourcePermit>)
    requires permit in permits && forall n :: n != permit.number ==> Held(after, n) == Held(before, n)
    ensures OthersSame(before, after, permits)
  {
    OneOfMany(permits, permit);
  }

  lemma SumStep(permits: seq<ResourcePermit>, k: nat)
    requires k < |permits|
    ensures SumReserved(permits[..k + 1]) == Plus(SumReserved(permits[..k]), permits[k].reserved)
  {
    assert permits[..k + 1][..k] == permits[..k];
  }

  /** Retains part of one permit of a list. */
  method RetainOne(budget: ResourceBudget, permits: seq<ResourcePermit>, k: nat, remaining: nat) returns (left: nat)
    requires budget.Valid() && AllLive(budget, SetOf(permits)) && Distinct(permits) && k < |permits|
    modifies budget, permits[k]
    ensures budget.Valid() && AllLive(budget, SetOf(permits)) && budget.next == old(budget.next)
    ensures SumReserved(permits[..k]) == old(SumReserved(permits[..k]))
    ensures SumReserved(permits[k + 1..]) == old(SumReserved(permits[k + 1..]))
    ensures var kept := permits[k].reserved.prepared;
            permits[k].reserved == OnlyPrepared(kept) && kept + left == remaining
            && (left > 0 ==> kept == old(permits[k].reserved).prepared)
    ensures OthersSame(old(budget.ledger), budget.ledger, SetOf(permits))
  {
    var permit := permits[k];
    assert permit in SetOf(permits);
    assert permit !in permits[..k] && permit !in permits[k + 1..];
    permit.RetainPrepared(remaining);
    OneChanged(old(budget.ledger), budget.ledger, permit, SetOf(permits));
    left := remaining - permit.reserved.prepared;
  }

  lemma {:induction false} PrependSum(first: ResourcePermit, permits: seq<ResourcePermit>)
    ensures SumReserved([first] + permits) == Plus(first.reserved, SumReserved(permits))
  {
    if permits == [] {
      assert [first] + permits == [first] && [first][..0] == [];
      assert SumReserved([]) == NO_WEIGHTS;
    } else {
      var n := |permits| - 1;
      PrependSum(first, permits[..n]);
      assert ([first] + permits)[..n + 1] == [first] + permits[..n];
    }
  }

  lemma SuffixSum(permits: seq<ResourcePermit>, k: nat)
    requires k < |permits|
    ensures SumReserved(permits[k..]) == Plus(permits[k].reserved, SumReserved(permits[k + 1..]))
  {
    assert permits[k..] == [permits[k]] + permits[k + 1..];
    PrependSum(permits[k], permits[k + 1..]);
  }

  /** Keeps exactly `bytes` prepared bytes over the permits, the first permits first. */
  method RetainAll(budget: ResourceBudget, permits: seq<ResourcePermit>, bytes: nat)
    requires budget.Valid() && AllLive(budget, SetOf(permits)) && Distinct(permits)
    requires bytes <= SumReserved(permits).prepared
    modifies budget, permits
    ensures budget.Valid() && AllLive(budget, SetOf(permits)) && budget.next == old(budget.next)
    ensures SumReserved(permits) == OnlyPrepared(bytes)
    ensures OthersSame(old(budget.ledger), budget.ledger, SetOf(permits))
  {
    hide SumReserved, OthersSame, AllLive;
    ghost var ledger := budget.ledger;
    SameOthers(ledger, SetOf(permits));
    EmptySum(permits);
    var remaining: nat := bytes;
    var k := 0;
    while k < |permits|
      invariant 0 <= k <= |permits| && remaining <= bytes && budget.Valid() && AllLive(budget, SetOf(permits))
      invariant budget.next == old(budget.next) && OthersSame(ledger, budget.ledger, SetOf(permits))
      invariant SumReserved(permits[..k]) == OnlyPrepared(bytes - remaining)
      invariant remaining <= SumReserved(permits[k..]).prepared
    {
      ghost var before := budget.ledger;
      SuffixSum(permits, k);
      remaining := RetainOne(budget, permits, k, remaining);
      OthersSameTwice(ledger, before, budget.ledger, SetOf(permits));
      SumStep(permits, k);
      k := k + 1;
    }
    EmptySum(permits);
  }

  lemma EmptySum(permits: seq<ResourcePermit>)
    ensures permits[..0] == [] && permits[|permits|..] == [] && SumReserved([]) == NO_WEIGHTS
    ensures permits[0..] == permits && permits[..|permits|] == permits
  {
  }

  lemma AppendSum(permits: seq<ResourcePermit>, last: ResourcePermit)
    ensures SumReserved(permits + [last]) == Plus(SumReserved(permits), last.reserved)
  {
    assert (permits + [last])[..|permits|] == permits;
  }

  lemma {:induction false} PreparedOnly(permits: seq<ResourcePermit>)
    requires OnlyPreparedHeld(permits)
    ensures SumReserved(permits) == OnlyPrepared(SumReserved(permits).prepared)
  {
    if permits != [] {
      PreparedOnly(permits[..|permits| - 1]);
    }
  }

  lemma NumbersBelow(budget: ResourceBudget, permits: set<ResourcePermit>)
    requires budget.Valid() && AllLive(budget, permits)
    ensures forall p :: p in permits ==> p.number < budget.next
  {
  }

  lemma LiveWithOne(budget: ResourceBudget, permits: set<ResourcePermit>, permit: ResourcePermit)
    requires AllLive(budget, permits) && permit.budget == budget && permit.Live()
    requires forall p :: p in permits ==> p.number < permit.number
    ensures AllLive(budget, permits + {permit})
  {
  }

  /** The context of one prepared item: what it holds, as one total. */
  class PrepareContext {
    const budget: ResourceBudget
    const initial: ResourcePermit
    var reserved: Weights
    var promoted: seq<ResourcePermit>

    function Permits(): seq<ResourcePermit>
      reads this
    {
      [initial] + promoted
    }

    /** The permits are live, distinct, and promoted ones hold prepared bytes only. */
    ghost predicate Owned(extra: set<ResourcePermit>)
      reads this`promoted, budget, initial, promoted, extra
    {
      budget.Valid() && AllLive(budget, {initial} + SetOf(promoted) + extra) && initial !in promoted && Distinct(promoted)
      && extra !! {initial} + SetOf(promoted) && OnlyPreparedHeld(promoted)
    }

    /** The recorded total is the sum of the permits that are held. */
    ghost predicate Valid()
      reads this, budget, initial, promoted
    {
      Owned({}) && reserved == Plus(initial.reserved, SumReserved(promoted))
    }

    constructor (initial: ResourcePermit)
      requires initial.budget.Valid() && initial.Live()
      ensures Valid() && this.initial == initial && budget == initial.budget && promoted == []
      ensures reserved == initial.reserved
    {
      this.initial, budget := initial, initial.budget;
      reserved, promoted := initial.reserved, [];
    }

    /** Gives up the prepared bytes held so far, before a larger request is made. */
    method ReleaseHeldPrepared()
      requires Valid()
      modifies this, budget, initial, promoted
      ensures Valid() && promoted == [] && reserved == Weights(old(reserved).source, old(reserved).scratch, 0)
      ensures budget.next == old(budget.next)
      ensures Plus(budget.used, OnlyPrepared(old(reserved).prepared)) == old(budget.used)
    {
      PreparedOnly(promoted);
      initial.ReleasePrepared();
      var dropped := promoted;
      DropAll(budget, dropped, {initial} + SetOf(dropped));
      promoted := [];
      reserved := Weights(reserved.source, reserved.scratch, 0);
    }

    /** Takes the missing weights as a new permit. */
    method Acquire(missing: Weights) returns (r: Result<ResourcePermit>)
      requires Valid()
      modifies budget
      ensures r.Ok? <==> Within(Plus(old(budget.used), missing), budget.limit)
      ensures r.Err? ==> Valid() && budget.used == old(budget.used)
      ensures r.Ok? ==> fresh(r.value) && Owned({r.value}) && r.value.reserved == missing
                        && budget.used == Plus(old(budget.used), missing)
    {
      var acquired := budget.TryAcquire(missing);
      if acquired.Err? {
        return Err(acquired.error);
      }
      if acquired.value.None? {
        return Err(Cancelled);
      }
      return Ok(acquired.value.value);
    }

    /** Moves the prepared bytes of the new permit to the promoted ones. */
    method Promote(reservation: ResourcePermit)
      requires Owned({reservation})
      modifies this`promoted, budget, reservation
      ensures Owned({reservation}) && reservation.reserved == Weights(old(reservation.reserved).source, old(reservation.reserved).scratch, 0)
      ensures SumReserved(promoted) == Plus(old(SumReserved(promoted)), OnlyPrepared(old(reservation.reserved).prepared))
      ensures |old(promoted)| <= |promoted| <= |old(promoted)| + 1 && promoted[..|old(promoted)|] == old(promoted)
      ensures forall i :: |old(promoted)| <= i < |promoted| ==> fresh(promoted[i])
      ensures SumReserved(old(promoted)) == old(SumReserved(promoted)) && budget.used == old(budget.used)
    {
      ghost var all := {initial} + SetOf(promoted) + {reservation};
      NumbersBelow(budget, all);
      var part := reservation.SplitPrepared();
      assert AllLive(budget, all);
      if part.Some? {
        AppendSum(promoted, part.value);
        LiveWithOne(budget, all, part.value);
        hide AllLive;
        assert {initial} + SetOf(promoted + [part.value]) + {reservation} == all + {part.value};
        promoted := promoted + [part.value];
      }
    }

    /** The operation succeeded: source and scratch additions go back. */
    method Succeed(reservation: ResourcePermit, previous: Weights)
      requires Owned({reservation})
      requires reserved == Plus(Plus(initial.reserved, SumReserved(promoted)), reservation.reserved)
      requires reserved == Plus(Weights(previous.source, previous.scratch, reserved.prepared), reservation.reserved)
      modifies this`reserved, budget, reservation
      ensures Valid() && reserved == Weights(previous.source, previous.scratch, old(reserved).prepared)
      ensures Plus(budget.used, old(reservation.reserved)) == old(budget.used)
    {
      reservation.Drop();
      reserved := Weights(previous.source, previous.scratch, reserved.prepared);
    }

    /** The operation failed: the promotion made for it and the reservation go back. */
    method Fail(reservation: ResourcePermit, previous: Weights, promotions: nat)
      requires Owned({reservation}) && promotions <= |promoted| <= promotions + 1
      requires previous == Plus(initial.reserved, SumReserved(promoted[..promotions]))
      modifies this, budget, reservation, promoted
      ensures Valid() && reserved == previous && promoted == old(promoted)[..promotions]
      ensures Plus(budget.used, Plus(old(reservation.reserved), old(SumReserved(promoted))))
              == Plus(old(budget.used), old(SumReserved(promoted[..promotions])))
    {
      Truncate(reservation, promotions);
      reserved := previous;
      reservation.Drop();
    }

    /** Drops the promotions from one position on; here there is at most one. */
    method Truncate(reservation: ResourcePermit, promotions: nat)
      requires Owned({reservation}) && promotions <= |promoted| <= promotions + 1
      modifies this`promoted, budget, promoted[promotions..]
      ensures Owned({reservation}) && promoted == old(promoted)[..promotions]
      ensures SumReserved(promoted) == old(SumReserved(promoted[..promotions]))
      ensures Plus(budget.used, old(SumReserved(promoted))) == Plus(old(budget.used), SumReserved(promoted))
      ensures reservation.reserved == old(reservation.reserved)
    {
      if |promoted| > promotions {
        var last, kept := promoted[promotions], promoted[..promotions];
        assert last !in kept;
        assert SetOf(promoted) == SetOf(kept) + {last};
        last.Drop();
        promoted := kept;
      } else {
        assert promoted[..promotions] == promoted;
      }
    }

    /** One use of additional resources around an operation, with nothing left to release first. */
    method Extend(required: Weights, succeeds: bool) returns (r: Result<()>, ghost during: Weights)
      requires Valid() && (required.prepared <= reserved.prepared || reserved.prepared == 0)
      modifies this, budget, promoted
      ensures Valid()
      ensures r.Ok? <==> succeeds && Within(Plus(old(budget.used), Minus(required, old(reserved))), budget.limit)
      ensures Plus(budget.used, old(reserved)) == Plus(old(budget.used), reserved)
      ensures reserved == if r.Ok? then Weights(old(reserved).source, old(reserved).scratch, MaxWeights(old(reserved), required).prepared)
                          else old(reserved)
      ensures r.Ok? ==> Within(required, during) && during == MaxWeights(old(reserved), required)
    {
      hide Owned, SumReserved;
      during := reserved;
      var missing := Minus(required, reserved);
      var previous, promotions := reserved, |promoted|;
      var acquired := Acquire(missing);
      if acquired.Err? {
        return Err(acquired.error), during;
      }
      var reservation := acquired.value;
      Promote(reservation);
      reserved := MaxWeights(reserved, required);
      during := reserved;
      if succeeds {
        Succeed(reservation, previous);
        return Ok(()), during;
      }
      Fail(reservation, previous, promotions);
      return Err(Provider), during;
    }

    /** One use of additional resources around an operation, which succeeds or fails; operations
        do not nest.  It goes through exactly when the operation succeeds and what is missing fits
        beside everything in use.  Either way the recorded total again equals what is held, and the
        budget moved by exactly its change: source and scratch additions are returned, prepared
        bytes are kept exactly on success. */
    method WithResources(required: Weights, succeeds: bool) returns (r: Result<()>, ghost during: Weights)
      requires Valid()
      modifies this, budget, initial, promoted
      ensures Valid()
      ensures r.Ok? <==> succeeds && Within(Plus(old(budget.used), Minus(required, old(reserved))), budget.limit)
      ensures Plus(budget.used, old(reserved)) == Plus(old(budget.used), reserved)
      ensures r.Ok? ==> reserved == Weights(old(reserved).source, old(reserved).scratch, MaxWeights(old(reserved), required).prepared)
      ensures r.Err? ==>
                reserved == if required.prepared > old(reserved).prepared
                            then Weights(old(reserved).source, old(reserved).scratch, 0) else old(reserved)
      ensures r.Ok? ==> Within(required, during) && during == MaxWeights(old(reserved), required)
    {
      assert Within(budget.used, budget.limit);
      hide Owned, SumReserved;
      var missing := Minus(required, reserved);
      if missing == NO_WEIGHTS {
        return if succeeds then Ok(()) else Err(Provider), reserved;
      }
      if missing.prepared > 0 {
        ReleaseHeldPrepared();
      }
      r, during := Extend(required, succeeds);
    }
  }

  /** The end of a preparation: on success exactly the actual prepared bytes stay reserved for
      delivery; otherwise, or when they exceed the reservation, nothing does. */
  method FinishPreparation(context: PrepareContext, prepared: Option<nat>) returns (r: Result<seq<ResourcePermit>>)
    requires context.Valid()
    modifies context.budget, context.initial, context.promoted
    ensures context.budget.Valid()
    ensures r.Ok? <==> prepared.Some? && prepared.value <= context.reserved.prepared
    ensures r.Ok? ==> r.value == context.Permits() && AllLive(context.budget, SetOf(r.value))
                      && SumReserved(r.value) == OnlyPrepared(prepared.value)
    ensures r.Err? ==> forall p :: p in context.Permits() ==> p.number !in context.budget.ledger
    ensures OthersSame(old(context.budget.ledger), context.budget.ledger, SetOf(context.Permits()))
  {
    var permits := context.Permits();
    assert SetOf(permits) == {context.initial} + SetOf(context.promoted) + {};
    if prepared.None? || prepared.value > context.reserved.prepared {
      DropAll(context.budget, permits, SetOf(permits));
      return Err(if prepared.None? then Provider else ResourceLimit);
    }
    PrependSum(context.initial, context.promoted);
    RetainAll(context.budget, permits, prepared.value);
    return Ok(permits);
  }

  // ---------- The dispatch window ----------

  /** Counts the items between dispatch and delivery; the ghost set names their permits. */
  class DispatchWindow {
    const limit: nat
    var used: nat
    ghost var permits: set<nat>

    ghost predicate Valid()
      reads this
    {
      used == |permits| <= limit
    }

    constructor (limit: nat)
      ensures Valid() && this.limit == limit && permits == {}
    {
      this.limit := limit;
      used, permits := 0, {};
    }

    /** One pass of the acquiring loop. */
    method TryAcquire(ghost item: nat) returns (acquired: bool)
      requires Valid() && item !in permits
      modifies this
      ensures Valid() && (acquired <==> |old(permits)| < limit)
      ensures permits == old(permits) + if acquired then {item} else {}
    {
      acquired := used < limit;
      if acquired {
        used, permits := used + 1, permits + {item};
      }
    }

    /** A dropped permit; the saturating decrement never saturates. */
    method Release(ghost item: nat)
      requires Valid() && item in permits
      modifies this
      ensures Valid() && permits == old(permits) - {item} && old(used) == used + 1
    {
      used := SaturatingSub(used, 1);
      permits := permits - {item};
    }
  }
}

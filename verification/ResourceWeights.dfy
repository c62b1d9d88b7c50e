/** Three-dimensional resource weights, and the total of a ledger of live permits. */
module ResourceWeights {

  datatype Weights = Weights(source: nat, scratch: nat, prepared: nat)

  const NO_WEIGHTS: Weights := Weights(0, 0, 0)

  predicate Within(a: Weights, b: Weights) {
    a.source <= b.source && a.scratch <= b.scratch && a.prepared <= b.prepared
  }

  /** The request fits beside what is used; the subtraction must not go below zero. */
  predicate Fits(used: Weights, requested: Weights, limit: Weights)
    requires Within(used, limit)
  {
    requested.source <= limit.source - used.source
    && requested.scratch <= limit.scratch - used.scratch
    && requested.prepared <= limit.prepared - used.prepared
  }

  function Plus(a: Weights, b: Weights): Weights {
    Weights(a.source + b.source, a.scratch + b.scratch, a.prepared + b.prepared)
  }

  function SaturatingSub(a: nat, b: nat): nat {
    if a < b then 0 else a - b
  }

  function Minus(a: Weights, b: Weights): Weights {
    Weights(SaturatingSub(a.source, b.source), SaturatingSub(a.scratch, b.scratch), SaturatingSub(a.prepared, b.prepared))
  }

  function Larger(a: nat, b: nat): nat {
    if a > b then a else b
  }

  function MaxWeights(a: Weights, b: Weights): Weights {
    Weights(Larger(a.source, b.source), Larger(a.scratch, b.scratch), Larger(a.prepared, b.prepared))
  }

  function OnlyPrepared(bytes: nat): Weights {
    Weights(0, 0, bytes)
  }

  // ---------- Ledgers ----------

  type Ledger = map<nat, Weights>

  function Held(ledger: Ledger, i: nat): Weights {
    if i in ledger then ledger[i] else NO_WEIGHTS
  }

  /** The sum of the entries numbered below `n`. */
  function Total(ledger: Ledger, n: nat): Weights {
    if n == 0 then NO_WEIGHTS else Plus(Total(ledger, n - 1), Held(ledger, n - 1))
  }

  lemma {:induction false} TotalSame(a: Ledger, b: Ledger, n: nat)
    requires forall i :: 0 <= i < n ==> Held(a, i) == Held(b, i)
    ensures Total(a, n) == Total(b, n)
  {
    if n > 0 {
      TotalSame(a, b, n - 1);
    }
  }

  /** Changing one entry changes the total by the difference. */
  lemma {:induction false} TotalChange(a: Ledger, b: Ledger, i: nat, n: nat)
    requires i < n && forall j :: 0 <= j < n && j != i ==> Held(a, j) == Held(b, j)
    ensures Plus(Total(a, n), Held(b, i)) == Plus(Total(b, n), Held(a, i))
  {
    if i == n - 1 {
      TotalSame(a, b, n - 1);
    } else {
      TotalChange(a, b, i, n - 1);
    }
  }

  lemma {:induction false} EntryBelowTotal(a: Ledger, i: nat, n: nat)
    requires i < n
    ensures Within(Held(a, i), Total(a, n))
  {
    if i < n - 1 {
      EntryBelowTotal(a, i, n - 1);
    }
  }

  lemma {:induction false} TotalOfNone(a: Ledger, n: nat)
    requires forall i :: 0 <= i < n ==> Held(a, i) == NO_WEIGHTS
    ensures Total(a, n) == NO_WEIGHTS
  {
    if n > 0 {
      TotalOfNone(a, n - 1);
    }
  }
}

/** Checked unsigned arithmetic and the error values the crate returns. */
module Checked {

  const U64_MAX: nat := 0xFFFF_FFFF_FFFF_FFFF
  const U32_MAX: nat := 0xFFFF_FFFF

  datatype Option<+T> = None | Some(value: T)

  /** Error categories.  `ViewLength` is the integrity error of a byte view whose length
      differs from its facts; it has its own constructor so that contracts can tell it
      from an internal inconsistency (`Integrity`). */
  datatype Error =
    | InvalidFormat
    | ResourceLimit
    | Binding
    | Integrity
    | ViewLength
    | Unsupported
    | Provider
    | Delivery
    | Cancelled

  datatype Result<+T> = Ok(value: T) | Err(error: Error) {

    predicate IsFailure() {
      Err?
    }

    function PropagateFailure<U>(): Result<U> {
      if Err? then Err(error) else Err(Integrity)
    }

    function Extract(): T
      requires Ok?
    {
      value
    }
  }

  function CheckedAdd(a: nat, b: nat): Result<nat> {
    if a + b <= U64_MAX then Ok(a + b) else Err(ResourceLimit)
  }

  function CheckedMul(a: nat, b: nat): Result<nat> {
    if a * b <= U64_MAX then Ok(a * b) else Err(ResourceLimit)
  }

  function Max(a: nat, b: nat): nat {
    if a < b then b else a
  }

  /** Items already collected, then those still to come. */
  function After<T>(done: seq<T>, rest: Result<seq<T>>): Result<seq<T>> {
    match rest
    case Err(e) => Err(e)
    case Ok(items) => Ok(done + items)
  }

  lemma AfterNothing<T>(rest: Result<seq<T>>)
    ensures After([], rest) == rest
  {
    if rest.Ok? {
      assert [] + rest.value == rest.value;
    }
  }
}

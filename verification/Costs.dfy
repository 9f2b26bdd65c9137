/** The route-cost domain and the router's error values. */
module Costs {
  import opened Common

  const INFINITE_COST: nat := 0xFFFF_FFFF_FFFF_FFFF

  /** Largest original-arc weight that pack validation accepts. */
  const MAX_PACK_ARC_WEIGHT := U32_MAX - 1

  /** Bound that pack validation puts on every finite CCH weight. */
  const MAX_ROUTE_WEIGHT := MAX_PACK_ARC_WEIGHT * MAX_PACK_ARC_WEIGHT

  type Cost = x: nat | x <= 0xFFFF_FFFF_FFFF_FFFF

  datatype RouterError =
    | InvalidPack(message: string)
    | NoRoute
    | InvalidControlCount(count: nat)
    | CostOverflow

  datatype Result<+T> = Ok(value: T) | Err(error: RouterError) {
    predicate IsFailure() {
      Err?
    }

    function PropagateFailure<U>(): Result<U>
      requires Err?
    {
      Err(error)
    }

    function Extract(): T
      requires Ok?
    {
      value
    }
  }

  /** Cost addition: the sentinel absorbs, and a finite sum that would reach
      the sentinel (or wrap the 64-bit word) is reported instead. */
  function Add(left: Cost, right: Cost): (r: Result<Cost>)
    ensures r.Ok? ==> r.value <= left + right
    ensures r.Ok? && r.value < INFINITE_COST ==> r.value == left + right
    ensures r.Err? <==> left < INFINITE_COST && right < INFINITE_COST && left + right >= INFINITE_COST
  {
    if left == INFINITE_COST || right == INFINITE_COST then Ok(INFINITE_COST)
    else if left + right < INFINITE_COST then Ok(left + right)
    else Err(CostOverflow)
  }

  /** The sum of two costs as an unbounded number. */
  function Plus(left: nat, right: nat): nat {
    left + right
  }
}

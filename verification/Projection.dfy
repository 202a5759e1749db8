/**
 The guards on stock quantities and the low-stock decision
 (apps/api/src/inventory/inventory-projection.ts). Quantities are integers: the
 columns they come from are PostgreSQL INTEGERs.
 */
module Projection {
  import opened Wrappers

  /** Number.MAX_SAFE_INTEGER. */
  const MAX_SAFE_INTEGER: int := 0x1F_FFFF_FFFF_FFFF

  datatype InventoryState = InventoryState(onHand: int, reserved: int) {
    function Available(): int {
      onHand - reserved
    }

    /** The table constraint on a balance, together with the range that JavaScript represents exactly. */
    predicate InRange() {
      0 <= reserved <= onHand <= MAX_SAFE_INTEGER
    }
  }

  datatype InventoryError = QuantityNotInteger | OnHandNegative | ReservedOutOfRange

  datatype LowStockTransition = NONE | OPEN | RESOLVE

  predicate IsSafeInteger(n: int) {
    -MAX_SAFE_INTEGER <= n <= MAX_SAFE_INTEGER
  }

  /** Success exactly when the resulting balance is in range, and then nothing but the two deltas changed. */
  function ProjectInventory(current: InventoryState, onHandDelta: int, reservedDelta: int)
    : (r: Result<InventoryState, InventoryError>)
    ensures var wanted := InventoryState(current.onHand + onHandDelta, current.reserved + reservedDelta);
            if wanted.InRange() then r == Success(wanted) else r.Failure?
  {
    var onHand := current.onHand + onHandDelta;
    var reserved := current.reserved + reservedDelta;
    if !(IsSafeInteger(onHand) && IsSafeInteger(reserved)) then Failure(QuantityNotInteger)
    else if onHand < 0 then Failure(OnHandNegative)
    else if reserved < 0 || reserved > onHand then Failure(ReservedOutOfRange)
    else Success(InventoryState(onHand, reserved))
  }

  /** Which refusal is given: a sum too large to be exact first, then stock below zero, then the reservation. */
  lemma RefusalReason(current: InventoryState, onHandDelta: int, reservedDelta: int)
    ensures var onHand, reserved := current.onHand + onHandDelta, current.reserved + reservedDelta;
            var exact := -9007199254740991 <= onHand <= 9007199254740991 && -9007199254740991 <= reserved <= 9007199254740991;
            var refused := ProjectInventory(current, onHandDelta, reservedDelta);
            && (refused == Failure(QuantityNotInteger) <==> !exact)
            && (refused == Failure(OnHandNegative) <==> exact && onHand < 0)
            && (refused == Failure(ReservedOutOfRange) <==> exact && onHand >= 0 && !(0 <= reserved <= onHand))
  {
  }

  function CrossingTransition(previousAvailable: int, nextAvailable: int, reorderPoint: int): LowStockTransition {
    if previousAvailable > reorderPoint && nextAvailable <= reorderPoint then OPEN
    else if previousAvailable <= reorderPoint && nextAvailable > reorderPoint then RESOLVE
    else NONE
  }

  function ReconcileTransition(available: int, reorderPoint: int, hasOpenAlert: bool): LowStockTransition {
    if available <= reorderPoint && !hasOpenAlert then OPEN
    else if available > reorderPoint && hasOpenAlert then RESOLVE
    else NONE
  }

  /**
   The crossing decision and the state-based decision give the same answer exactly when the alert
   agreed with the balance before the change. So only the state-based one repairs a wrong alert.
   */
  lemma DecisionsAgreeIffAlertWasRight(previous: int, next: int, point: int, hasOpenAlert: bool)
    ensures CrossingTransition(previous, next, point) == ReconcileTransition(next, point, hasOpenAlert)
            <==> (hasOpenAlert <==> previous <= point)
  {
  }
}

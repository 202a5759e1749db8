/**
 The stock tables of one workspace and what each command does to them when it runs alone: receipts,
 adjustments, order drafts, order transitions and alert reconciliation. Orders are numbered in the
 order they are created; movements are kept in commit order.
 */
module StockLedger {
  import opened Wrappers
  import opened Projection

  datatype Line = Line(product: nat, quantity: int)

  datatype OrderStatus = DRAFT | CONFIRMED | FULFILLED | CANCELLED

  datatype Order = Order(status: OrderStatus, lines: seq<Line>)

  datatype MovementType = RECEIPT | SALE | ADJUSTMENT_IN | ADJUSTMENT_OUT

  datatype Movement = Movement(kind: MovementType, product: nat, delta: int, onHandAfter: int, reference: nat)

  /** `openAlerts` counts the OPEN alert rows of each product; `reorderPoints` is the product table. */
  datatype Database = Database(
    balances: map<nat, InventoryState>,
    orders: seq<Order>,
    movements: seq<Movement>,
    openAlerts: multiset<nat>,
    reorderPoints: map<nat, int>)

  datatype Refusal =
    | NoBalance
    | InsufficientStock
    | BrokenInvariant(cause: InventoryError)
    | OrderNotFound
    | BadTransition
    | NotDraft
    | ProductNotFound

  /** The work done on one balance row while it is locked. */
  datatype ActionKind = Receive | AdjustIn | AdjustOut | Reserve | Ship | Release | Scan

  datatype Action = Action(kind: ActionKind, product: nat, quantity: int, reference: nat)

  /** What an action leaves behind: the new row, the product's open alerts, and the movements to append. */
  datatype Effect = Effect(balance: InventoryState, openAlerts: nat, movements: seq<Movement>)

  function Row(db: Database, product: nat): Option<InventoryState> {
    if product in db.balances then Some(db.balances[product]) else None
  }

  function ReorderPoint(db: Database, product: nat): int {
    if product in db.reorderPoints then db.reorderPoints[product] else 0
  }

  function OnHandDelta(a: Action): int {
    match a.kind
    case Receive => a.quantity
    case AdjustIn => a.quantity
    case AdjustOut => -a.quantity
    case Ship => -a.quantity
    case _ => 0
  }

  function ReservedDelta(a: Action): int {
    match a.kind
    case Reserve => a.quantity
    case Ship => -a.quantity
    case Release => -a.quantity
    case _ => 0
  }

  function MovementOf(a: Action, onHandAfter: int): seq<Movement> {
    match a.kind
    case Receive => [Movement(RECEIPT, a.product, a.quantity, onHandAfter, a.reference)]
    case AdjustIn => [Movement(ADJUSTMENT_IN, a.product, a.quantity, onHandAfter, a.reference)]
    case AdjustOut => [Movement(ADJUSTMENT_OUT, a.product, -a.quantity, onHandAfter, a.reference)]
    case Ship => [Movement(SALE, a.product, -a.quantity, onHandAfter, a.reference)]
    case _ => []
  }

  /** The row an action starts from: receipts and adjustments create a missing row, the others refuse. */
  function Current(row: Option<InventoryState>, a: Action): Option<InventoryState> {
    match a.kind
    case Receive => if row.None? then Some(InventoryState(0, 0)) else row
    case AdjustIn => if row.None? then Some(InventoryState(0, 0)) else row
    case AdjustOut => if row.None? then Some(InventoryState(0, 0)) else row
    case _ => row
  }

  /** The new balance. A reservation checks availability only; every other change goes through the guards. */
  function NextBalance(current: InventoryState, a: Action): Result<InventoryState, Refusal> {
    if a.kind == Reserve then
      if current.Available() < a.quantity then Failure(InsufficientStock)
      else Success(InventoryState(current.onHand, current.reserved + a.quantity))
    else if a.kind == Scan then Success(current)
    else
      match ProjectInventory(current, OnHandDelta(a), ReservedDelta(a))
      case Success(next) => Success(next)
      case Failure(cause) => Failure(BrokenInvariant(cause))
  }

  /** Open alerts after reconciliation: opening adds a row, resolving closes every open row. */
  function ReconcileAlerts(available: int, point: int, open: nat): nat {
    match ReconcileTransition(available, point, open > 0)
    case OPEN => open + 1
    case RESOLVE => 0
    case NONE => open
  }

  function EffectOf(row: Option<InventoryState>, open: nat, point: int, a: Action): Result<Effect, Refusal> {
    var current := Current(row, a);
    if current.None? then Failure(NoBalance)
    else
      match NextBalance(current.value, a)
      case Failure(refusal) => Failure(refusal)
      case Success(next) =>
        Success(Effect(next, ReconcileAlerts(next.Available(), point, open), MovementOf(a, next.onHand)))
  }

  function Install(db: Database, product: nat, e: Effect): Database {
    db.(balances := db.balances[product := e.balance],
        openAlerts := db.openAlerts[product := e.openAlerts],
        movements := db.movements + e.movements)
  }

  function ApplyAction(db: Database, a: Action, point: int): Result<Database, Refusal> {
    match EffectOf(Row(db, a.product), db.openAlerts[a.product], point, a)
    case Failure(refusal) => Failure(refusal)
    case Success(e) => Success(Install(db, a.product, e))
  }

  function PointAt(points: seq<int>, i: nat): int {
    if i < |points| then points[i] else 0
  }

  /** The actions one after another; `points[i]` is the reorder point that action `i` used. */
  function ApplyActions(db: Database, actions: seq<Action>, points: seq<int>): Result<Database, Refusal> {
    if actions == [] then Success(db)
    else
      var last := |actions| - 1;
      match ApplyActions(db, actions[..last], points)
      case Failure(refusal) => Failure(refusal)
      case Success(mid) => ApplyAction(mid, actions[last], PointAt(points, last))
  }

  // ----- Which actions a command performs -----

  function Insert(line: Line, lines: seq<Line>): seq<Line> {
    if lines == [] || line.product <= lines[0].product then [line] + lines
    else [lines[0]] + Insert(line, lines[1..])
  }

  function SortByProduct(lines: seq<Line>): seq<Line> {
    if lines == [] then [] else Insert(lines[0], SortByProduct(lines[1..]))
  }

  function ActionsFor(kind: ActionKind, lines: seq<Line>, reference: nat): (actions: seq<Action>)
    ensures |actions| == |lines|
    ensures forall i | 0 <= i < |lines| :: actions[i] == Action(kind, lines[i].product, lines[i].quantity, reference)
  {
    seq(|lines|, i requires 0 <= i < |lines| => Action(kind, lines[i].product, lines[i].quantity, reference))
  }

  predicate CanTransition(from: OrderStatus, to: OrderStatus) {
    match from
    case DRAFT => to == CANCELLED || to == CONFIRMED
    case CONFIRMED => to == CANCELLED || to == FULFILLED
    case _ => false
  }

  function TransitionActions(id: nat, order: Order, to: OrderStatus): seq<Action> {
    var lines := SortByProduct(order.lines);
    if to == CONFIRMED then ActionsFor(Reserve, lines, id)
    else if to == FULFILLED then ActionsFor(Ship, lines, id)
    else if to == CANCELLED && order.status == CONFIRMED then ActionsFor(Release, lines, id)
    else []
  }

  function ReceiptActions(receipt: nat, lines: seq<Line>): seq<Action> {
    ActionsFor(Receive, SortByProduct(lines), receipt)
  }

  /** What the input schemas guarantee: positive quantities and each product at most once. */
  ghost predicate ValidLines(lines: seq<Line>) {
    && (forall i | 0 <= i < |lines| :: lines[i].quantity > 0)
    && (forall i, j | 0 <= i < j < |lines| :: lines[i].product != lines[j].product)
  }

  predicate AllKnown(db: Database, lines: seq<Line>) {
    forall i | 0 <= i < |lines| :: lines[i].product in db.reorderPoints
  }

  // ----- The commands -----

  datatype Command =
    | Receipt(receipt: nat, lines: seq<Line>)
    | Adjustment(movement: nat, product: nat, quantity: int, inward: bool)
    | CreateDraft(lines: seq<Line>)
    | EditDraft(order: nat, lines: seq<Line>)
    | Transition(order: nat, to: OrderStatus)
    | Reconcile

  ghost predicate ValidCommand(c: Command) {
    match c
    case Receipt(_, lines) => ValidLines(lines)
    case Adjustment(_, _, quantity, _) => quantity > 0
    case CreateDraft(lines) => ValidLines(lines)
    case EditDraft(_, lines) => ValidLines(lines)
    case _ => true
  }

  /** Whether `c` may start on `db`, before it touches any balance. */
  function Admit(db: Database, c: Command): Option<Refusal> {
    match c
    case Receipt(_, lines) => if AllKnown(db, lines) then None else Some(ProductNotFound)
    case Adjustment(_, product, _, _) => if product in db.reorderPoints then None else Some(ProductNotFound)
    case CreateDraft(lines) => if AllKnown(db, lines) then None else Some(ProductNotFound)
    case EditDraft(id, lines) =>
      if id >= |db.orders| then Some(OrderNotFound)
      else if db.orders[id].status != DRAFT then Some(NotDraft)
      else if !AllKnown(db, lines) then Some(ProductNotFound)
      else None
    case Transition(id, to) =>
      if id >= |db.orders| then Some(OrderNotFound)
      else if !CanTransition(db.orders[id].status, to) then Some(BadTransition)
      else None
    case Reconcile => None
  }

  /** The balance rows `c` works on, in the order it locks them. `rows` are those a reconciliation found. */
  function Plan(db: Database, c: Command, rows: seq<nat>): seq<Action>
    requires Admit(db, c).None?
  {
    match c
    case Receipt(receipt, lines) => ReceiptActions(receipt, lines)
    case Adjustment(movement, product, quantity, inward) =>
      [Action(if inward then AdjustIn else AdjustOut, product, quantity, movement)]
    case Transition(id, to) => TransitionActions(id, db.orders[id], to)
    case Reconcile => ScanActions(rows)
    case _ => []
  }

  function ScanActions(rows: seq<nat>): (actions: seq<Action>)
    ensures |actions| == |rows|
    ensures forall i | 0 <= i < |rows| :: actions[i] == Action(Scan, rows[i], 0, 0)
  {
    seq(|rows|, i requires 0 <= i < |rows| => Action(Scan, rows[i], 0, 0))
  }

  /** The order table after `c`. */
  function OrdersAfter(orders: seq<Order>, c: Command): seq<Order> {
    match c
    case CreateDraft(lines) => orders + [Order(DRAFT, lines)]
    case EditDraft(id, lines) => if id < |orders| then orders[id := orders[id].(lines := lines)] else orders
    case Transition(id, to) => if id < |orders| then orders[id := orders[id].(status := to)] else orders
    case _ => orders
  }

  /** `c` executed alone, from its first check to its commit. */
  function Execute(db: Database, c: Command, rows: seq<nat>, points: seq<int>): Result<Database, Refusal> {
    match Admit(db, c)
    case Some(refusal) => Failure(refusal)
    case None =>
      match ApplyActions(db, Plan(db, c, rows), points)
      case Failure(refusal) => Failure(refusal)
      case Success(mid) => Success(mid.(orders := OrdersAfter(mid.orders, c)))
  }
}

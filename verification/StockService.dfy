/**
 The stock commands as the services execute them, statement by statement, on tables that are updated
 in place. A refused command rolls back to the tables it started from.
 */
module StockService {
  import opened Wrappers
  import opened Projection
  import opened StockLedger
  import opened StockInvariants
  import Enumeration
  import opened StockAlone
  import opened StockReconciliation

  lemma Associative<T>(a: seq<T>, b: seq<T>, c: seq<T>)
    ensures a + (b + c) == (a + b) + c
  {
  }

  lemma NextRow(rows: seq<nat>, i: nat)
    requires i < |rows| && forall j, k | 0 <= j < k < |rows| :: rows[j] < rows[k]
    ensures rows[i] !in rows[..i] && rows[..i + 1] == rows[..i] + [rows[i]] && rows[..i + 1][..i] == rows[..i]
  {
  }

  class StockTables {
    var balances: map<nat, InventoryState>
    var orders: seq<Order>
    var movements: seq<Movement>
    var openAlerts: multiset<nat>
    var reorderPoints: map<nat, int>

    function State(): Database
      reads this
    {
      Database(balances, orders, movements, openAlerts, reorderPoints)
    }

    /** The outcome of a whole command: the tables it produces alone, or its refusal and the tables as they were. */
    ghost predicate Committed(before: Database, c: Command, r: Result<(), Refusal>)
      reads this
    {
      match ExecuteNow(before, c, [])
      case Success(after) => r.Success? && State() == after
      case Failure(refusal) => r == Failure(refusal) && State() == before
    }

    method Rollback(before: Database)
      modifies this
      ensures State() == before
    {
      balances, orders, movements := before.balances, before.orders, before.movements;
      openAlerts, reorderPoints := before.openAlerts, before.reorderPoints;
    }

    /** Opens or resolves the product's low-stock alert from its current availability. */
    method ReconcileBalance(product: nat, available: int, point: int) returns (transition: LowStockTransition)
      modifies this`openAlerts
      ensures openAlerts == old(openAlerts)[product := ReconcileAlerts(available, point, old(openAlerts)[product])]
      ensures transition == ReconcileTransition(available, point, old(openAlerts)[product] > 0)
    {
      var hasOpenAlert := openAlerts[product] > 0;
      transition := ReconcileTransition(available, point, hasOpenAlert);
      if transition == OPEN {
        openAlerts := openAlerts[product := openAlerts[product] + 1];
      }
      if transition == RESOLVE {
        openAlerts := openAlerts[product := 0];
      }
    }

    /** Creates the balance row if it is missing, then locks and reads it. */
    method LockInventoryBalance(product: nat) returns (current: InventoryState)
      modifies this`balances
      ensures product in balances && balances[product] == current
      ensures current == if product in old(balances) then old(balances)[product] else InventoryState(0, 0)
      ensures balances == old(balances)[product := current]
    {
      if product !in balances {
        balances := balances[product := InventoryState(0, 0)];
      }
      current := balances[product];
    }

    /** The outcome of one action on the tables: done and nothing else changed, or refused for its reason. */
    ghost predicate LineDone(before: Database, a: Action, refused: Option<Refusal>)
      reads this
    {
      match ApplyAction(before, a, ReorderPoint(before, a.product))
      case Success(after) => refused == None && State() == after
      case Failure(refusal) => refused == Some(refusal)
    }

    /** The outcome of a whole list of actions. */
    ghost predicate LinesDone(before: Database, actions: seq<Action>, refused: Option<Refusal>)
      reads this
    {
      match ApplyNow(before, actions)
      case Success(after) => refused == None && State() == after
      case Failure(refusal) => refused == Some(refusal)
    }

    /** Adds a received quantity to the stock on hand. */
    method ReceiveLine(reference: nat, line: Line) returns (refused: Option<Refusal>)
      modifies this`balances, this`openAlerts, this`movements
      ensures LineDone(old(State()), Action(Receive, line.product, line.quantity, reference), refused)
    {
      var current := LockInventoryBalance(line.product);
      match ProjectInventory(current, line.quantity, 0)
      case Failure(cause) =>
        return Some(BrokenInvariant(cause));
      case Success(next) =>
        balances := balances[line.product := next];
        movements := movements + [Movement(RECEIPT, line.product, line.quantity, next.onHand, reference)];
        var point := if line.product in reorderPoints then reorderPoints[line.product] else 0;
        var _ := ReconcileBalance(line.product, next.Available(), point);
        refused := None;
    }

    /** Reserves a line of an order that is being confirmed. */
    method ReserveLine(reference: nat, line: Line) returns (refused: Option<Refusal>)
      modifies this`balances, this`openAlerts
      ensures LineDone(old(State()), Action(Reserve, line.product, line.quantity, reference), refused)
    {
      if line.product !in balances {
        return Some(NoBalance);
      }
      var balance := balances[line.product];
      if balance.onHand - balance.reserved < line.quantity {
        return Some(InsufficientStock);
      }
      balances := balances[line.product := InventoryState(balance.onHand, balance.reserved + line.quantity)];
      var point := if line.product in reorderPoints then reorderPoints[line.product] else 0;
      var _ := ReconcileBalance(line.product, balance.onHand - balance.reserved - line.quantity, point);
      assert movements + [] == movements;
      refused := None;
    }

    /** Takes a line of an order that is being fulfilled out of stock and out of the reservations. */
    method ShipLine(reference: nat, line: Line) returns (refused: Option<Refusal>)
      modifies this`balances, this`openAlerts, this`movements
      ensures LineDone(old(State()), Action(Ship, line.product, line.quantity, reference), refused)
    {
      if line.product !in balances {
        return Some(NoBalance);
      }
      var balance := balances[line.product];
      match ProjectInventory(balance, -line.quantity, -line.quantity)
      case Failure(cause) =>
        return Some(BrokenInvariant(cause));
      case Success(next) =>
        balances := balances[line.product := next];
        var point := if line.product in reorderPoints then reorderPoints[line.product] else 0;
        var _ := ReconcileBalance(line.product, next.Available(), point);
        var movement := Movement(SALE, line.product, -line.quantity, next.onHand, reference);
        assert MovementOf(Action(Ship, line.product, line.quantity, reference), next.onHand) == [movement];
        movements := movements + [movement];
        refused := None;
    }

    /** Gives back the reservation of a line of a confirmed order that is being cancelled. */
    method ReleaseLine(reference: nat, line: Line) returns (refused: Option<Refusal>)
      modifies this`balances, this`openAlerts
      ensures LineDone(old(State()), Action(Release, line.product, line.quantity, reference), refused)
    {
      if line.product !in balances {
        return Some(NoBalance);
      }
      var balance := balances[line.product];
      match ProjectInventory(balance, 0, -line.quantity)
      case Failure(cause) =>
        return Some(BrokenInvariant(cause));
      case Success(next) =>
        balances := balances[line.product := next];
        var point := if line.product in reorderPoints then reorderPoints[line.product] else 0;
        var _ := ReconcileBalance(line.product, next.Available(), point);
        assert movements + [] == movements;
        refused := None;
    }

    method ReceiveLines(reference: nat, sorted: seq<Line>) returns (refused: Option<Refusal>)
      modifies this`balances, this`openAlerts, this`movements
      ensures LinesDone(old(State()), ActionsFor(Receive, sorted, reference), refused)
    {
      ghost var before := State();
      ghost var actions := ActionsFor(Receive, sorted, reference);
      for i := 0 to |sorted|
        invariant ApplyNow(before, actions[..i]) == Success(State())
        invariant reorderPoints == before.reorderPoints
      {
        ApplyNext(before, actions, i);
        RefusalIsFinalIfRefused(before, actions, i + 1);
        refused := ReceiveLine(reference, sorted[i]);
        if refused.Some? {
          return;
        }
      }
      assert actions[..|sorted|] == actions;
      refused := None;
    }

    method ReserveLines(reference: nat, sorted: seq<Line>) returns (refused: Option<Refusal>)
      modifies this`balances, this`openAlerts
      ensures LinesDone(old(State()), ActionsFor(Reserve, sorted, reference), refused)
    {
      ghost var before := State();
      ghost var actions := ActionsFor(Reserve, sorted, reference);
      for i := 0 to |sorted|
        invariant ApplyNow(before, actions[..i]) == Success(State())
        invariant reorderPoints == before.reorderPoints
      {
        ApplyNext(before, actions, i);
        RefusalIsFinalIfRefused(before, actions, i + 1);
        refused := ReserveLine(reference, sorted[i]);
        if refused.Some? {
          return;
        }
      }
      assert actions[..|sorted|] == actions;
      refused := None;
    }

    method ShipLines(reference: nat, sorted: seq<Line>) returns (refused: Option<Refusal>)
      modifies this`balances, this`openAlerts, this`movements
      ensures LinesDone(old(State()), ActionsFor(Ship, sorted, reference), refused)
    {
      ghost var before := State();
      ghost var actions := ActionsFor(Ship, sorted, reference);
      for i := 0 to |sorted|
        invariant ApplyNow(before, actions[..i]) == Success(State())
        invariant reorderPoints == before.reorderPoints
      {
        ApplyNext(before, actions, i);
        RefusalIsFinalIfRefused(before, actions, i + 1);
        refused := ShipLine(reference, sorted[i]);
        if refused.Some? {
          return;
        }
      }
      assert actions[..|sorted|] == actions;
      refused := None;
    }

    method ReleaseLines(reference: nat, sorted: seq<Line>) returns (refused: Option<Refusal>)
      modifies this`balances, this`openAlerts
      ensures LinesDone(old(State()), ActionsFor(Release, sorted, reference), refused)
    {
      ghost var before := State();
      ghost var actions := ActionsFor(Release, sorted, reference);
      for i := 0 to |sorted|
        invariant ApplyNow(before, actions[..i]) == Success(State())
        invariant reorderPoints == before.reorderPoints
      {
        ApplyNext(before, actions, i);
        RefusalIsFinalIfRefused(before, actions, i + 1);
        refused := ReleaseLine(reference, sorted[i]);
        if refused.Some? {
          return;
        }
      }
      assert actions[..|sorted|] == actions;
      refused := None;
    }

    /** Receives every line in product order. */
    method ApplyReceipt(receipt: nat, lines: seq<Line>) returns (r: Result<(), Refusal>)
      modifies this
      ensures Committed(old(State()), Receipt(receipt, lines), r)
    {
      var before := State();
      if exists i | 0 <= i < |lines| :: lines[i].product !in reorderPoints {
        return Failure(ProductNotFound);
      }
      var refused := ReceiveLines(receipt, SortByProduct(lines));
      if refused.Some? {
        Rollback(before);
        return Failure(refused.value);
      }
      r := Success(());
    }

    method AdjustLine(reference: nat, line: Line, inward: bool) returns (refused: Option<Refusal>)
      modifies this`balances, this`openAlerts, this`movements
      ensures var kind := if inward then AdjustIn else AdjustOut;
              LineDone(old(State()), Action(kind, line.product, line.quantity, reference), refused)
    {
      ghost var a := Action(if inward then AdjustIn else AdjustOut, line.product, line.quantity, reference);
      var current := LockInventoryBalance(line.product);
      var quantityDelta := if inward then line.quantity else -line.quantity;
      assert OnHandDelta(a) == quantityDelta && ReservedDelta(a) == 0;
      hide ReconcileAlerts, ProjectInventory, OnHandDelta, ReservedDelta;
      match ProjectInventory(current, quantityDelta, 0)
      case Failure(cause) =>
        return Some(BrokenInvariant(cause));
      case Success(next) =>
        balances := balances[line.product := next];
        var movement :=
          Movement(if inward then ADJUSTMENT_IN else ADJUSTMENT_OUT, line.product, quantityDelta, next.onHand, reference);
        assert MovementOf(a, next.onHand) == [movement];
        movements := movements + [movement];
        var point := if line.product in reorderPoints then reorderPoints[line.product] else 0;
        var _ := ReconcileBalance(line.product, next.Available(), point);
        refused := None;
    }

    /** Moves the stock of one product by hand. */
    method Adjust(movement: nat, product: nat, quantity: int, inward: bool) returns (r: Result<(), Refusal>)
      modifies this
      ensures Committed(old(State()), Adjustment(movement, product, quantity, inward), r)
    {
      var before := State();
      if product !in reorderPoints {
        return Failure(ProductNotFound);
      }
      ApplyOne(before, Action(if inward then AdjustIn else AdjustOut, product, quantity, movement));
      var refused := AdjustLine(movement, Line(product, quantity), inward);
      if refused.Some? {
        Rollback(before);
        return Failure(refused.value);
      }
      r := Success(());
    }

    /** Moves an order to its next status and its stock with it. */
    method TransitionOrder(id: nat, to: OrderStatus) returns (r: Result<(), Refusal>)
      modifies this
      ensures Committed(old(State()), Transition(id, to), r)
    {
      var before := State();
      if id >= |orders| {
        return Failure(OrderNotFound);
      }
      var current := orders[id];
      if !CanTransition(current.status, to) {
        return Failure(BadTransition);
      }
      var lines := SortByProduct(current.lines);
      var refused := None;
      if to == CONFIRMED {
        refused := ReserveLines(id, lines);
      }
      if to == FULFILLED {
        refused := ShipLines(id, lines);
      }
      if to == CANCELLED && current.status == CONFIRMED {
        refused := ReleaseLines(id, lines);
      }
      if refused.Some? {
        Rollback(before);
        return Failure(refused.value);
      }
      orders := orders[id := current.(status := to)];
      r := Success(());
    }

    /** Replaces the lines of a draft. */
    method UpdateDraft(id: nat, lines: seq<Line>) returns (r: Result<(), Refusal>)
      modifies this
      ensures Committed(old(State()), EditDraft(id, lines), r)
    {
      var before := State();
      if id >= |orders| {
        return Failure(OrderNotFound);
      }
      if orders[id].status != DRAFT {
        return Failure(NotDraft);
      }
      orders := orders[id := orders[id].(lines := [])];
      if exists i | 0 <= i < |lines| :: lines[i].product !in reorderPoints {
        Rollback(before);
        return Failure(ProductNotFound);
      }
      for i := 0 to |lines|
        modifies this`orders
        invariant orders == before.orders[id := before.orders[id].(lines := lines[..i])]
      {
        assert lines[..i + 1] == lines[..i] + [lines[i]];
        orders := orders[id := orders[id].(lines := orders[id].lines + [lines[i]])];
      }
      assert lines[..|lines|] == lines;
      r := Success(());
    }

    /** The balance rows in product order. */
    method SelectBalances() returns (rows: seq<nat>)
      ensures rows == Enumeration.Ascending(balances.Keys)
    {
      var rest := balances.Keys;
      rows := [];
      while rest != {}
        invariant rows + Enumeration.Ascending(rest) == Enumeration.Ascending(balances.Keys)
        decreases |rest|
      {
        Enumeration.LeastExists(rest);
        var p :| p in rest && forall q | q in rest :: p <= q;
        Associative(rows, [p], Enumeration.Ascending(rest - {p}));
        rows := rows + [p];
        rest := rest - {p};
      }
    }

    method ScanLine(ghost before: Database, ghost done: seq<nat>, product: nat) returns (transition: LowStockTransition)
      requires product in balances && product !in done && forall p | p in done :: p in before.balances
      requires State() == before.(openAlerts := AlertsAfter(before, done))
      modifies this`openAlerts
      ensures State() == before.(openAlerts := AlertsAfter(before, done + [product]))
      ensures transition == Decision(before, product)
    {
      AlertsAfterPointwise(before, done);
      assert (done + [product])[..|done|] == done;
      var point := if product in reorderPoints then reorderPoints[product] else 0;
      transition := ReconcileBalance(product, balances[product].Available(), point);
    }

    method ScanRows(rows: seq<nat>) returns (openedCount: nat, resolvedCount: nat)
      requires forall i | 0 <= i < |rows| :: rows[i] in balances
      requires forall i, j | 0 <= i < j < |rows| :: rows[i] < rows[j]
      modifies this`openAlerts
      ensures (forall p | p in rows :: p in old(balances))
              && State() == old(State()).(openAlerts := AlertsAfter(old(State()), rows))
      ensures openedCount == Count(old(State()), rows, OPEN) && resolvedCount == Count(old(State()), rows, RESOLVE)
    {
      ghost var before := State();
      openedCount, resolvedCount := 0, 0;
      for i := 0 to |rows|
        modifies this`openAlerts
        invariant State() == before.(openAlerts := AlertsAfter(before, rows[..i]))
        invariant openedCount == Count(before, rows[..i], OPEN) && resolvedCount == Count(before, rows[..i], RESOLVE)
      {
        NextRow(rows, i);
        var transition := ScanLine(before, rows[..i], rows[i]);
        if transition == OPEN {
          openedCount := openedCount + 1;
        }
        if transition == RESOLVE {
          resolvedCount := resolvedCount + 1;
        }
      }
      assert rows[..|rows|] == rows;
    }

    /** Reconciles the alert of every balance, in product order, and counts what changed. */
    method ReconcileOrganization() returns (openedCount: nat, resolvedCount: nat, scanned: nat)
      modifies this`openAlerts
      ensures var rows := Enumeration.Ascending(old(balances).Keys);
              && ExecuteNow(old(State()), Reconcile, rows) == Success(State())
              && openedCount == Count(old(State()), rows, OPEN)
              && resolvedCount == Count(old(State()), rows, RESOLVE)
              && scanned == |rows|
    {
      hide ExecuteNow, AlertsAfter, Count;
      var rows := SelectBalances();
      Enumeration.AscendingIsSorted(balances.Keys);
      ReconcileIsScan(State());
      openedCount, resolvedCount := ScanRows(rows);
      scanned := |rows|;
    }
  }
}

/**
 What ties balances, orders, movements and alerts together, and the proof that every command keeps
 it when executed alone.
 */
module StockInvariants {
  import opened Wrappers
  import opened Projection
  import opened StockLedger

  // ----- The sums that no single table stores -----

  ghost function OnHand(db: Database, p: nat): int {
    if p in db.balances then db.balances[p].onHand else 0
  }

  ghost function Reserved(db: Database, p: nat): int {
    if p in db.balances then db.balances[p].reserved else 0
  }

  ghost function Ordered(lines: seq<Line>, p: nat): int {
    if lines == [] then 0
    else Ordered(lines[..|lines| - 1], p) + (if lines[|lines| - 1].product == p then lines[|lines| - 1].quantity else 0)
  }

  /** The quantity of `p` over all lines of CONFIRMED orders. */
  ghost function Promised(orders: seq<Order>, p: nat): int {
    if orders == [] then 0
    else
      var o := orders[|orders| - 1];
      Promised(orders[..|orders| - 1], p) + (if o.status == CONFIRMED then Ordered(o.lines, p) else 0)
  }

  ghost function MovementTotal(movements: seq<Movement>, p: nat): int {
    if movements == [] then 0
    else
      var m := movements[|movements| - 1];
      MovementTotal(movements[..|movements| - 1], p) + (if m.product == p then m.delta else 0)
  }

  /** The SALE deltas of `p` that refer to order `id`. */
  ghost function SaleTotal(movements: seq<Movement>, id: nat, p: nat): int {
    if movements == [] then 0
    else
      var m := movements[|movements| - 1];
      SaleTotal(movements[..|movements| - 1], id, p)
      + (if m.kind == SALE && m.reference == id && m.product == p then m.delta else 0)
  }

  // ----- The invariant -----

  ghost predicate BalancesInRange(db: Database) {
    forall p | p in db.balances :: db.balances[p].InRange()
  }

  ghost predicate LedgerAddsUp(db: Database) {
    && (forall p: nat :: OnHand(db, p) == MovementTotal(db.movements, p))
    && (forall i | 0 <= i < |db.movements| ::
          db.movements[i].onHandAfter == MovementTotal(db.movements[..i + 1], db.movements[i].product))
  }

  ghost predicate ReservationsMatchOrders(db: Database) {
    forall p: nat :: Reserved(db, p) == Promised(db.orders, p)
  }

  ghost function SoldBy(orders: seq<Order>, id: nat, p: nat): int {
    if id < |orders| && orders[id].status == FULFILLED then -Ordered(orders[id].lines, p) else 0
  }

  ghost predicate SalesMatchOrders(db: Database) {
    && (forall id: nat, p: nat :: SaleTotal(db.movements, id, p) == SoldBy(db.orders, id, p))
    && (forall i | 0 <= i < |db.movements| && db.movements[i].kind == SALE ::
          db.movements[i].reference < |db.orders| && db.orders[db.movements[i].reference].status == FULFILLED)
  }

  ghost predicate OneAlertPerProduct(db: Database) {
    forall p: nat :: db.openAlerts[p] <= 1 && (p !in db.balances ==> db.openAlerts[p] == 0)
  }

  ghost predicate OrdersValid(db: Database) {
    forall id | 0 <= id < |db.orders| :: ValidLines(db.orders[id].lines)
  }

  ghost predicate Consistent(db: Database) {
    && BalancesInRange(db)
    && LedgerAddsUp(db)
    && ReservationsMatchOrders(db)
    && SalesMatchOrders(db)
    && OneAlertPerProduct(db)
    && OrdersValid(db)
  }

  // ----- One action -----

  ghost function OnHandChange(actions: seq<Action>, p: nat): int {
    if actions == [] then 0
    else
      var a := actions[|actions| - 1];
      OnHandChange(actions[..|actions| - 1], p) + (if a.product == p then OnHandDelta(a) else 0)
  }

  ghost function ReservedChange(actions: seq<Action>, p: nat): int {
    if actions == [] then 0
    else
      var a := actions[|actions| - 1];
      ReservedChange(actions[..|actions| - 1], p) + (if a.product == p then ReservedDelta(a) else 0)
  }

  ghost function Shipped(actions: seq<Action>, id: nat, p: nat): int {
    if actions == [] then 0
    else
      var a := actions[|actions| - 1];
      Shipped(actions[..|actions| - 1], id, p)
      + (if a.kind == Ship && a.reference == id && a.product == p then -a.quantity else 0)
  }

  ghost predicate PositiveActions(actions: seq<Action>) {
    forall i | 0 <= i < |actions| :: actions[i].quantity >= 0
  }

  /** The part of the invariant that speaks of stock only; it holds between the actions of a command too. */
  ghost predicate StockConsistent(db: Database) {
    BalancesInRange(db) && LedgerAddsUp(db) && OneAlertPerProduct(db)
  }

  lemma NextBalanceMoves(current: InventoryState, a: Action)
    requires NextBalance(current, a).Success?
    ensures NextBalance(current, a).value == InventoryState(current.onHand + OnHandDelta(a), current.reserved + ReservedDelta(a))
    ensures current.InRange() && a.quantity >= 0 ==> NextBalance(current, a).value.InRange()
  {
  }

  lemma AppendMovement(movements: seq<Movement>, m: Movement)
    ensures forall p: nat ::
              MovementTotal(movements + [m], p) == MovementTotal(movements, p) + (if m.product == p then m.delta else 0)
    ensures forall id: nat, p: nat ::
              SaleTotal(movements + [m], id, p)
              == SaleTotal(movements, id, p) + (if m.kind == SALE && m.reference == id && m.product == p then m.delta else 0)
  {
    assert (movements + [m])[..|movements|] == movements;
  }

  lemma AppendKeepsRunningTotals(db: Database, m: Movement)
    requires LedgerAddsUp(db)
    requires m.onHandAfter == OnHand(db, m.product) + m.delta
    ensures var movements := db.movements + [m];
            forall i | 0 <= i < |movements| ::
              movements[i].onHandAfter == MovementTotal(movements[..i + 1], movements[i].product)
  {
    var movements := db.movements + [m];
    forall i | 0 <= i < |movements|
      ensures movements[i].onHandAfter == MovementTotal(movements[..i + 1], movements[i].product)
    {
      if i < |db.movements| {
        assert movements[..i + 1] == db.movements[..i + 1];
      } else {
        assert movements[..i + 1] == movements && movements[..i] == db.movements;
        assert OnHand(db, m.product) == MovementTotal(db.movements, m.product);
      }
    }
  }

  /** One action moves each sum by exactly its own delta. */
  lemma ActionMovesSums(db: Database, a: Action, point: int)
    requires BalancesInRange(db) && OneAlertPerProduct(db) && a.quantity >= 0
    requires ApplyAction(db, a, point).Success?
    ensures var after := ApplyAction(db, a, point).value;
            && BalancesInRange(after) && OneAlertPerProduct(after)
            && after.orders == db.orders && after.reorderPoints == db.reorderPoints
            && (forall p: nat :: Reserved(after, p) == Reserved(db, p) + (if p == a.product then ReservedDelta(a) else 0))
            && (forall p: nat :: OnHand(after, p) == OnHand(db, p) + (if p == a.product then OnHandDelta(a) else 0))
            && after.movements == db.movements + MovementOf(a, OnHand(after, a.product))
  {
    NextBalanceMoves(Current(Row(db, a.product), a).value, a);
  }

  lemma ActionKeepsLedger(db: Database, a: Action, after: Database)
    requires LedgerAddsUp(db) && after.movements == db.movements + MovementOf(a, OnHand(after, a.product))
    requires forall p: nat :: OnHand(after, p) == OnHand(db, p) + (if p == a.product then OnHandDelta(a) else 0)
    ensures LedgerAddsUp(after)
  {
    var news := MovementOf(a, OnHand(after, a.product));
    if news == [] {
      assert after.movements == db.movements;
    } else {
      assert news == [news[0]];
      AppendMovement(db.movements, news[0]);
      AppendKeepsRunningTotals(db, news[0]);
    }
    forall p: nat ensures OnHand(after, p) == MovementTotal(after.movements, p) {
      assert OnHand(db, p) == MovementTotal(db.movements, p);
    }
  }

  lemma ActionSells(db: Database, a: Action, onHandAfter: int)
    ensures forall id: nat, p: nat ::
              SaleTotal(db.movements + MovementOf(a, onHandAfter), id, p)
              == SaleTotal(db.movements, id, p)
                 + (if a.kind == Ship && a.reference == id && a.product == p then -a.quantity else 0)
  {
    var news := MovementOf(a, onHandAfter);
    if news == [] {
      assert db.movements + news == db.movements;
    } else {
      assert news == [news[0]];
      AppendMovement(db.movements, news[0]);
    }
  }

  lemma ActionKeepsStock(db: Database, a: Action, point: int)
    requires StockConsistent(db) && a.quantity >= 0
    requires ApplyAction(db, a, point).Success?
    ensures var after := ApplyAction(db, a, point).value;
            && StockConsistent(after)
            && (forall id: nat, p: nat ::
                  SaleTotal(after.movements, id, p)
                  == SaleTotal(db.movements, id, p)
                     + (if a.kind == Ship && a.reference == id && a.product == p then -a.quantity else 0))
  {
    ActionMovesSums(db, a, point);
    var after := ApplyAction(db, a, point).value;
    ActionKeepsLedger(db, a, after);
    ActionSells(db, a, OnHand(after, a.product));
  }

  // ----- All actions of a command -----

  lemma {:induction false} ActionsKeepStock(db: Database, actions: seq<Action>, points: seq<int>)
    requires StockConsistent(db) && PositiveActions(actions)
    requires ApplyActions(db, actions, points).Success?
    ensures var after := ApplyActions(db, actions, points).value;
            && StockConsistent(after)
            && after.orders == db.orders && after.reorderPoints == db.reorderPoints
            && (forall p: nat :: Reserved(after, p) == Reserved(db, p) + ReservedChange(actions, p))
            && (forall p: nat :: OnHand(after, p) == OnHand(db, p) + OnHandChange(actions, p))
            && (forall id: nat, p: nat ::
                  SaleTotal(after.movements, id, p) == SaleTotal(db.movements, id, p) + Shipped(actions, id, p))
  {
    if actions != [] {
      var last := |actions| - 1;
      ActionsKeepStock(db, actions[..last], points);
      ActionKeepsStock(ApplyActions(db, actions[..last], points).value, actions[last], PointAt(points, last));
      ActionMovesSums(ApplyActions(db, actions[..last], points).value, actions[last], PointAt(points, last));
    }
  }

  ghost predicate Ships(actions: seq<Action>, id: nat) {
    exists a | a in actions :: a.kind == Ship && a.reference == id
  }

  /** `after` continues `before`, and every SALE it adds refers to an order that `actions` ship. */
  ghost predicate OnlyShipmentsSell(before: seq<Movement>, after: seq<Movement>, actions: seq<Action>) {
    && |before| <= |after| && after[..|before|] == before
    && forall i | |before| <= i < |after| && after[i].kind == SALE :: Ships(actions, after[i].reference)
  }

  lemma ShipsMore(actions: seq<Action>, id: nat)
    requires actions != [] && Ships(actions[..|actions| - 1], id)
    ensures Ships(actions, id)
  {
    var a :| a in actions[..|actions| - 1] && a.kind == Ship && a.reference == id;
    assert a in actions;
  }

  lemma OneMoreAction(before: seq<Movement>, mid: seq<Movement>, actions: seq<Action>, onHandAfter: int)
    requires actions != [] && OnlyShipmentsSell(before, mid, actions[..|actions| - 1])
    ensures OnlyShipmentsSell(before, mid + MovementOf(actions[|actions| - 1], onHandAfter), actions)
  {
    var a := actions[|actions| - 1];
    var after := mid + MovementOf(a, onHandAfter);
    forall i | |before| <= i < |after| && after[i].kind == SALE ensures Ships(actions, after[i].reference) {
      if i < |mid| {
        ShipsMore(actions, mid[i].reference);
      } else {
        assert after[i] == MovementOf(a, onHandAfter)[i - |mid|];
        assert a in actions;
      }
    }
  }

  lemma ApplyActionAppends(db: Database, a: Action, point: int) returns (onHandAfter: int)
    requires ApplyAction(db, a, point).Success?
    ensures ApplyAction(db, a, point).value.movements == db.movements + MovementOf(a, onHandAfter)
  {
    onHandAfter := NextBalance(Current(Row(db, a.product), a).value, a).value.onHand;
  }

  /** Every SALE movement a plan appends refers to an order it ships. */
  lemma {:induction false} NewSalesAreShipments(db: Database, actions: seq<Action>, points: seq<int>)
    requires ApplyActions(db, actions, points).Success?
    ensures OnlyShipmentsSell(db.movements, ApplyActions(db, actions, points).value.movements, actions)
  {
    if actions != [] {
      var last := |actions| - 1;
      var mid := ApplyActions(db, actions[..last], points).value;
      NewSalesAreShipments(db, actions[..last], points);
      var onHandAfter := ApplyActionAppends(mid, actions[last], PointAt(points, last));
      OneMoreAction(db.movements, mid.movements, actions, onHandAfter);
    }
  }

  // ----- Sorting keeps what is ordered -----

  ghost function OrderedFromFront(lines: seq<Line>, p: nat): int {
    if lines == [] then 0
    else (if lines[0].product == p then lines[0].quantity else 0) + OrderedFromFront(lines[1..], p)
  }

  lemma {:induction false} OrderedBothWays(lines: seq<Line>, p: nat)
    ensures Ordered(lines, p) == OrderedFromFront(lines, p)
  {
    if |lines| > 1 {
      var last := |lines| - 1;
      OrderedBothWays(lines[..last], p);
      OrderedBothWays(lines[1..last], p);
      OrderedBothWays(lines[1..], p);
      assert lines[..last][1..] == lines[1..last] && lines[1..][..last - 1] == lines[1..last];
    }
  }

  ghost predicate Ascending(lines: seq<Line>) {
    forall i, j | 0 <= i < j < |lines| :: lines[i].product < lines[j].product
  }

  lemma {:induction false} InsertSorts(line: Line, lines: seq<Line>)
    requires Ascending(lines)
    requires forall l | l in lines :: l.product != line.product
    ensures Ascending(Insert(line, lines))
    ensures forall l :: l in Insert(line, lines) <==> l == line || l in lines
  {
    if lines != [] && line.product > lines[0].product {
      var rest := Insert(line, lines[1..]);
      InsertSorts(line, lines[1..]);
      assert lines == [lines[0]] + lines[1..];
      forall l | l in rest ensures lines[0].product < l.product {
        if l != line {
          var k :| 0 <= k < |lines[1..]| && lines[1..][k] == l;
          assert lines[k + 1] == l;
        }
      }
    }
  }

  lemma {:induction false} InsertTotals(line: Line, lines: seq<Line>, p: nat)
    ensures OrderedFromFront(Insert(line, lines), p)
            == (if line.product == p then line.quantity else 0) + OrderedFromFront(lines, p)
  {
    if lines == [] || line.product <= lines[0].product {
      assert ([line] + lines)[1..] == lines;
    } else {
      InsertTotals(line, lines[1..], p);
      assert Insert(line, lines)[1..] == Insert(line, lines[1..]);
    }
  }

  lemma {:induction false} SortTotals(lines: seq<Line>, p: nat)
    ensures OrderedFromFront(SortByProduct(lines), p) == OrderedFromFront(lines, p)
  {
    if lines != [] {
      SortTotals(lines[1..], p);
      InsertTotals(lines[0], SortByProduct(lines[1..]), p);
    }
  }

  lemma {:induction false} SortSorts(lines: seq<Line>)
    requires ValidLines(lines)
    ensures Ascending(SortByProduct(lines))
    ensures forall l :: l in SortByProduct(lines) <==> l in lines
  {
    if lines != [] {
      SortSorts(lines[1..]);
      assert lines == [lines[0]] + lines[1..];
      InsertSorts(lines[0], SortByProduct(lines[1..]));
    }
  }

  /** Working in product order changes neither the set of lines nor what they add up to. */
  lemma SortKeepsLines(lines: seq<Line>)
    requires ValidLines(lines)
    ensures Ascending(SortByProduct(lines))
    ensures forall l :: l in SortByProduct(lines) <==> l in lines
    ensures forall i | 0 <= i < |SortByProduct(lines)| :: SortByProduct(lines)[i].quantity > 0
    ensures forall p: nat :: Ordered(SortByProduct(lines), p) == Ordered(lines, p)
  {
    var sorted := SortByProduct(lines);
    SortSorts(lines);
    forall i | 0 <= i < |sorted| ensures sorted[i].quantity > 0 {
      assert sorted[i] in lines;
    }
    forall p: nat ensures Ordered(sorted, p) == Ordered(lines, p) {
      OrderedBothWays(sorted, p);
      OrderedBothWays(lines, p);
      SortTotals(lines, p);
    }
  }

  // ----- What a plan changes -----

  lemma {:induction false} ActionsForTotals(kind: ActionKind, lines: seq<Line>, reference: nat)
    ensures var actions := ActionsFor(kind, lines, reference);
            && (forall p: nat :: ReservedChange(actions, p)
                  == (match kind case Reserve => Ordered(lines, p) case Ship => -Ordered(lines, p)
                                 case Release => -Ordered(lines, p) case _ => 0))
            && (forall id: nat, p: nat ::
                  Shipped(actions, id, p) == if kind == Ship && id == reference then -Ordered(lines, p) else 0)
  {
    if lines != [] {
      var last := |lines| - 1;
      ActionsForTotals(kind, lines[..last], reference);
      assert ActionsFor(kind, lines, reference)[..last] == ActionsFor(kind, lines[..last], reference);
    }
  }

  lemma PromisedAfterUpdate(orders: seq<Order>, id: nat, o: Order)
    requires id < |orders|
    ensures forall p: nat ::
              Promised(orders[id := o], p)
              == Promised(orders, p)
                 - (if orders[id].status == CONFIRMED then Ordered(orders[id].lines, p) else 0)
                 + (if o.status == CONFIRMED then Ordered(o.lines, p) else 0)
  {
    var last := |orders| - 1;
    if id == last {
      assert orders[id := o][..last] == orders[..last];
    } else {
      PromisedAfterUpdate(orders[..last], id, o);
      assert orders[id := o][..last] == orders[..last][id := o];
    }
  }

  lemma TransitionTotals(id: nat, order: Order, to: OrderStatus)
    requires ValidLines(order.lines) && CanTransition(order.status, to)
    ensures var actions := TransitionActions(id, order, to);
            && PositiveActions(actions)
            && (forall p: nat :: ReservedChange(actions, p)
                  == (if to == CONFIRMED then Ordered(order.lines, p) else 0)
                     - (if order.status == CONFIRMED then Ordered(order.lines, p) else 0))
            && (forall o: nat, p: nat ::
                  Shipped(actions, o, p) == if to == FULFILLED && o == id then -Ordered(order.lines, p) else 0)
            && (forall a | a in actions && a.kind == Ship :: to == FULFILLED && a.reference == id)
  {
    SortKeepsLines(order.lines);
    var lines := SortByProduct(order.lines);
    ActionsForTotals(Reserve, lines, id);
    ActionsForTotals(Ship, lines, id);
    ActionsForTotals(Release, lines, id);
  }

  lemma {:induction false} IdleActions(actions: seq<Action>)
    requires forall a | a in actions :: a.kind in {Receive, AdjustIn, AdjustOut, Scan}
    ensures forall p: nat :: ReservedChange(actions, p) == 0
    ensures forall id: nat, p: nat :: Shipped(actions, id, p) == 0
  {
    if actions != [] {
      IdleActions(actions[..|actions| - 1]);
      assert actions[|actions| - 1] in actions;
    }
  }

  lemma PlanIsPositive(db: Database, c: Command, rows: seq<nat>)
    requires OrdersValid(db) && ValidCommand(c) && Admit(db, c).None?
    ensures PositiveActions(Plan(db, c, rows))
  {
    match c
    case Receipt(_, lines) =>
      SortKeepsLines(lines);
    case Transition(id, to) =>
      TransitionTotals(id, db.orders[id], to);
    case _ =>
  }

  lemma ExecuteKeepsReservations(db: Database, c: Command, mid: Database, actions: seq<Action>)
    requires ReservationsMatchOrders(db) && OrdersValid(db) && Admit(db, c).None? && mid.orders == db.orders
    requires forall p: nat :: Reserved(mid, p) == Reserved(db, p) + ReservedChange(actions, p)
    requires c.Transition? ==> actions == TransitionActions(c.order, db.orders[c.order], c.to)
    requires !c.Transition? ==> forall a | a in actions :: a.kind in {Receive, AdjustIn, AdjustOut, Scan}
    ensures ReservationsMatchOrders(mid.(orders := OrdersAfter(mid.orders, c)))
  {
    var after := mid.(orders := OrdersAfter(mid.orders, c));
    if c.Transition? {
      TransitionTotals(c.order, db.orders[c.order], c.to);
      PromisedAfterUpdate(db.orders, c.order, db.orders[c.order].(status := c.to));
    } else {
      IdleActions(actions);
      if c.EditDraft? {
        PromisedAfterUpdate(db.orders, c.order, db.orders[c.order].(lines := c.lines));
      } else if c.CreateDraft? {
        assert after.orders[..|db.orders|] == db.orders;
      }
    }
    forall p: nat ensures Reserved(after, p) == Promised(after.orders, p) {
      assert Reserved(after, p) == Reserved(mid, p) && Reserved(db, p) == Promised(db.orders, p);
    }
  }

  lemma ExecuteKeepsSales(db: Database, c: Command, mid: Database, actions: seq<Action>)
    requires SalesMatchOrders(db) && OrdersValid(db) && Admit(db, c).None? && mid.orders == db.orders
    requires forall id: nat, p: nat :: SaleTotal(mid.movements, id, p) == SaleTotal(db.movements, id, p) + Shipped(actions, id, p)
    requires OnlyShipmentsSell(db.movements, mid.movements, actions)
    requires c.Transition? ==> actions == TransitionActions(c.order, db.orders[c.order], c.to)
    requires !c.Transition? ==> forall a | a in actions :: a.kind in {Receive, AdjustIn, AdjustOut, Scan}
    ensures SalesMatchOrders(mid.(orders := OrdersAfter(mid.orders, c)))
  {
    var after := mid.(orders := OrdersAfter(mid.orders, c));
    if c.Transition? {
      TransitionTotals(c.order, db.orders[c.order], c.to);
    } else {
      IdleActions(actions);
    }
    forall id: nat, p: nat ensures SaleTotal(after.movements, id, p) == SoldBy(after.orders, id, p) {
      assert SaleTotal(db.movements, id, p) == SoldBy(db.orders, id, p);
    }
    forall i | 0 <= i < |after.movements| && after.movements[i].kind == SALE
      ensures after.movements[i].reference < |after.orders|
      ensures after.orders[after.movements[i].reference].status == FULFILLED
    {
      if i < |db.movements| {
        assert mid.movements[..|db.movements|][i] == db.movements[i];
      }
    }
  }

  lemma PlanKinds(db: Database, c: Command, rows: seq<nat>)
    requires Admit(db, c).None? && !c.Transition?
    ensures forall a | a in Plan(db, c, rows) :: a.kind in {Receive, AdjustIn, AdjustOut, Scan}
  {
  }

  /** The main invariant: a command that succeeds leaves the tables tied together as before. */
  lemma ExecuteKeepsConsistent(db: Database, c: Command, rows: seq<nat>, points: seq<int>)
    requires Consistent(db) && ValidCommand(c)
    requires Execute(db, c, rows, points).Success?
    ensures Consistent(Execute(db, c, rows, points).value)
  {
    var actions := Plan(db, c, rows);
    var mid := ApplyActions(db, actions, points).value;
    PlanIsPositive(db, c, rows);
    ActionsKeepStock(db, actions, points);
    NewSalesAreShipments(db, actions, points);
    if !c.Transition? {
      PlanKinds(db, c, rows);
    }
    ExecuteKeepsReservations(db, c, mid, actions);
    ExecuteKeepsSales(db, c, mid, actions);
    var after := mid.(orders := OrdersAfter(mid.orders, c));
    assert LedgerAddsUp(after) by {
      forall p: nat ensures OnHand(after, p) == MovementTotal(after.movements, p) {
        assert OnHand(after, p) == OnHand(mid, p);
      }
    }
  }

  // ----- Consequences -----

  lemma {:induction false} PromisedCoversEachOrder(orders: seq<Order>, id: nat, p: nat)
    requires forall i | 0 <= i < |orders| :: ValidLines(orders[i].lines)
    requires id < |orders| && orders[id].status == CONFIRMED
    ensures 0 <= Ordered(orders[id].lines, p) <= Promised(orders, p)
  {
    var last := |orders| - 1;
    OrderedIsNatural(orders[id].lines, p);
    if id == last {
      PromisedIsNatural(orders[..last], p);
    } else {
      PromisedCoversEachOrder(orders[..last], id, p);
      OrderedIsNatural(orders[last].lines, p);
    }
  }

  lemma OrderedIsNatural(lines: seq<Line>, p: nat)
    requires forall i | 0 <= i < |lines| :: lines[i].quantity > 0
    ensures 0 <= Ordered(lines, p)
    ensures forall i | 0 <= i < |lines| && lines[i].product == p :: lines[i].quantity <= Ordered(lines, p)
  {
  }

  lemma PromisedIsNatural(orders: seq<Order>, p: nat)
    requires forall i | 0 <= i < |orders| :: ValidLines(orders[i].lines)
    ensures 0 <= Promised(orders, p)
  {
    if orders != [] {
      OrderedIsNatural(orders[|orders| - 1].lines, p);
    }
  }

  /** A row that holds at least the reserved quantity can be shipped from and released. */
  lemma CoveredIsAccepted(row: InventoryState, open: nat, point: int, a: Action)
    requires row.InRange() && 0 < a.quantity <= row.reserved && a.kind in {Ship, Release}
    ensures EffectOf(Some(row), open, point, a).Success?
  {
    var wanted := InventoryState(row.onHand + OnHandDelta(a), row.reserved + ReservedDelta(a));
    assert wanted.InRange();
  }

  lemma ShippedLineIsOrdered(id: nat, order: Order, to: OrderStatus, a: Action)
    requires ValidLines(order.lines) && order.status == CONFIRMED && CanTransition(CONFIRMED, to)
    requires a in TransitionActions(id, order, to)
    ensures a.kind in {Ship, Release} && 0 < a.quantity <= Ordered(order.lines, a.product)
  {
    SortKeepsLines(order.lines);
    var sorted := SortByProduct(order.lines);
    OrderedIsNatural(sorted, a.product);
    var i :| 0 <= i < |sorted| && a == TransitionActions(id, order, to)[i];
    assert a.product == sorted[i].product && a.quantity == sorted[i].quantity;
  }

  /** Shipping or releasing a line of a CONFIRMED order is never refused. */
  lemma ConfirmedLinesAreCovered(db: Database, id: nat, to: OrderStatus, a: Action, point: int)
    requires Consistent(db) && id < |db.orders| && db.orders[id].status == CONFIRMED
    requires CanTransition(CONFIRMED, to) && a in TransitionActions(id, db.orders[id], to)
    ensures EffectOf(Row(db, a.product), db.openAlerts[a.product], point, a).Success?
  {
    hide TransitionActions, EffectOf, Ordered, Promised, LedgerAddsUp, SalesMatchOrders;
    assert ValidLines(db.orders[id].lines);
    ShippedLineIsOrdered(id, db.orders[id], to, a);
    PromisedCoversEachOrder(db.orders, id, a.product);
    assert Reserved(db, a.product) == Promised(db.orders, a.product);
    assert a.product in db.balances && db.balances[a.product].InRange();
    CoveredIsAccepted(db.balances[a.product], db.openAlerts[a.product], point, a);
  }

  // ----- Alerts -----

  ghost predicate AlertRight(db: Database, p: nat, point: int) {
    p in db.balances && db.openAlerts[p] == (if db.balances[p].Available() <= point then 1 else 0)
  }

  lemma ActionSetsAlert(db: Database, a: Action, point: int)
    requires OneAlertPerProduct(db) && ApplyAction(db, a, point).Success?
    ensures AlertRight(ApplyAction(db, a, point).value, a.product, point)
  {
  }

  /** After a command, every product it touched has an open alert exactly when its stock is low. */
  lemma {:induction false} ActionsSetAlerts(db: Database, actions: seq<Action>, points: seq<int>)
    requires StockConsistent(db) && PositiveActions(actions) && |actions| <= |points|
    requires forall i, j | 0 <= i < j < |actions| :: actions[i].product != actions[j].product
    requires ApplyActions(db, actions, points).Success?
    ensures forall i | 0 <= i < |actions| ::
              AlertRight(ApplyActions(db, actions, points).value, actions[i].product, PointAt(points, i))
  {
    if actions != [] {
      var last := |actions| - 1;
      ActionsKeepStock(db, actions[..last], points);
      ActionsSetAlerts(db, actions[..last], points);
      ActionSetsAlert(ApplyActions(db, actions[..last], points).value, actions[last], PointAt(points, last));
    }
  }
}

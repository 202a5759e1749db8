/**
 What each stock command does and when it is accepted, in the quantities of its lines: how much a receipt or an
 adjustment moves, which orders can be confirmed, and which transitions there are.
 */
module StockLaws {
  import opened Wrappers
  import opened Projection
  import opened StockLedger
  import opened StockInvariants

  // ----- One action -----

  /** The movements `after` adds to those of `before`. */
  ghost function News(before: Database, after: Database): seq<Movement>
    requires |before.movements| <= |after.movements|
  {
    after.movements[|before.movements|..]
  }

  ghost predicate Appends(before: Database, after: Database) {
    |before.movements| <= |after.movements| && after.movements[..|before.movements|] == before.movements
  }

  /** `after` differs from `before` by these changes of one product, and by one movement if `kind` is given. */
  ghost predicate Moved(before: Database, after: Database, product: nat, onHand: int, reserved: int,
                        kind: Option<MovementType>, reference: nat) {
    && after.orders == before.orders && after.reorderPoints == before.reorderPoints
    && (forall p: nat :: OnHand(after, p) == OnHand(before, p) + if p == product then onHand else 0)
    && (forall p: nat :: Reserved(after, p) == Reserved(before, p) + if p == product then reserved else 0)
    && after.movements == before.movements
       + match kind
         case None => []
         case Some(k) => [Movement(k, product, onHand, OnHand(after, product), reference)]
  }

  lemma InstallMoves(db: Database, p: nat, e: Effect, onHand: int, reserved: int, kind: Option<MovementType>, reference: nat)
    requires e.balance == InventoryState(OnHand(db, p) + onHand, Reserved(db, p) + reserved)
    requires e.movements == match kind
                            case None => []
                            case Some(k) => [Movement(k, p, onHand, e.balance.onHand, reference)]
    ensures Moved(db, Install(db, p, e), p, onHand, reserved, kind, reference)
  {
  }

  /** What an action makes of a row: a quantity in, out, or between available and reserved. */
  lemma EffectLaw(row: Option<InventoryState>, open: nat, point: int, a: Action, onHand: int, reserved: int)
    requires onHand == (if row.Some? then row.value.onHand else 0) && reserved == if row.Some? then row.value.reserved else 0
    requires EffectOf(row, open, point, a).Success?
    ensures var e, q := EffectOf(row, open, point, a).value, a.quantity;
            match a.kind
            case Receive => Becomes(e, a, onHand, reserved, q, 0, Some(RECEIPT))
            case AdjustIn => Becomes(e, a, onHand, reserved, q, 0, Some(ADJUSTMENT_IN))
            case AdjustOut => Becomes(e, a, onHand, reserved, -q, 0, Some(ADJUSTMENT_OUT))
            case Reserve => Becomes(e, a, onHand, reserved, 0, q, None)
            case Ship => Becomes(e, a, onHand, reserved, -q, -q, Some(SALE))
            case Release => Becomes(e, a, onHand, reserved, 0, -q, None)
            case Scan => Becomes(e, a, onHand, reserved, 0, 0, None)
  {
    NextBalanceMoves(Current(row, a).value, a);
  }

  ghost predicate Becomes(e: Effect, a: Action, onHand: int, reserved: int, x: int, y: int, kind: Option<MovementType>) {
    && e.balance == InventoryState(onHand + x, reserved + y)
    && e.movements == match kind
                      case None => []
                      case Some(k) => [Movement(k, a.product, x, e.balance.onHand, a.reference)]
  }

  /** How far a kind of action moves stock for each unit of its quantity, and the movement it leaves. */
  datatype Effects = Effects(onHand: int, reserved: int, kind: Option<MovementType>)

  ghost function EffectsOf(kind: ActionKind): Effects {
    match kind
    case Receive => Effects(1, 0, Some(RECEIPT))
    case AdjustIn => Effects(1, 0, Some(ADJUSTMENT_IN))
    case AdjustOut => Effects(-1, 0, Some(ADJUSTMENT_OUT))
    case Reserve => Effects(0, 1, None)
    case Ship => Effects(-1, -1, Some(SALE))
    case Release => Effects(0, -1, None)
    case Scan => Effects(0, 0, None)
  }

  /** How one action moves stock. */
  lemma ActionLaw(db: Database, a: Action, point: int)
    requires ApplyAction(db, a, point).Success?
    ensures var e := EffectsOf(a.kind);
            Moved(db, ApplyAction(db, a, point).value, a.product, e.onHand * a.quantity, e.reserved * a.quantity, e.kind, a.reference)
  {
    hide EffectOf, Moved, Install;
    var p, x := a.product, EffectsOf(a.kind);
    var e := EffectOf(Row(db, p), db.openAlerts[p], point, a).value;
    EffectLaw(Row(db, p), db.openAlerts[p], point, a, OnHand(db, p), Reserved(db, p));
    InstallMoves(db, p, e, x.onHand * a.quantity, x.reserved * a.quantity, x.kind, a.reference);
  }

  /** When one action is accepted, whatever the alerts of its product are. */
  lemma ActionAcceptedIff(db: Database, a: Action, open: nat, point: int)
    requires BalancesInRange(db) && a.quantity >= 0
    ensures var r, p := EffectOf(Row(db, a.product), open, point, a), a.product;
            match a.kind
            case Receive => r.Success? <==> OnHand(db, p) + a.quantity <= MAX_SAFE_INTEGER
            case AdjustIn => r.Success? <==> OnHand(db, p) + a.quantity <= MAX_SAFE_INTEGER
            case AdjustOut => r.Success? <==> Reserved(db, p) <= OnHand(db, p) - a.quantity
            case Reserve => r.Success? <==> p in db.balances && OnHand(db, p) - Reserved(db, p) >= a.quantity
            case Ship => r.Success? <==> p in db.balances && Reserved(db, p) >= a.quantity
            case Release => r.Success? <==> p in db.balances && Reserved(db, p) >= a.quantity
            case Scan => r.Success? <==> p in db.balances
  {
    var p := a.product;
    assert p in db.balances ==> db.balances[p].InRange();
    var wanted := InventoryState(OnHand(db, p) + OnHandDelta(a), Reserved(db, p) + ReservedDelta(a));
    if Current(Row(db, p), a).Some? {
      assert Current(Row(db, p), a).value == InventoryState(OnHand(db, p), Reserved(db, p));
    }
  }

  // ----- The same for every line of a command -----

  /** A movement that tells of a line: its product, and its quantity in or out. */
  ghost predicate Tells(m: Movement, line: Line, kind: MovementType, sign: int, reference: nat) {
    m.kind == kind && m.product == line.product && m.delta == sign * line.quantity && m.reference == reference
  }

  /** `after` differs from `before` by what the lines say, with one movement for each line if `kind` is given. */
  ghost predicate LinesMoved(before: Database, after: Database, lines: seq<Line>, e: Effects, reference: nat) {
    && after.orders == before.orders && after.reorderPoints == before.reorderPoints
    && (forall p: nat :: OnHand(after, p) == OnHand(before, p) + e.onHand * Ordered(lines, p))
    && (forall p: nat :: Reserved(after, p) == Reserved(before, p) + e.reserved * Ordered(lines, p))
    && Appends(before, after)
    && (e.kind.None? ==> News(before, after) == [])
    && (e.kind.Some? ==>
          && |News(before, after)| == |lines|
          && forall i | 0 <= i < |lines| :: Tells(News(before, after)[i], lines[i], e.kind.value, e.onHand, reference))
  }

  lemma Times(sign: int, a: int, b: int)
    ensures sign * (a + b) == sign * a + sign * b && sign * 0 == 0
  {
  }

  lemma OneMoreOrdered(lines: seq<Line>, sign: int, p: nat)
    requires lines != []
    ensures var line := lines[|lines| - 1];
            sign * Ordered(lines, p)
            == sign * Ordered(lines[..|lines| - 1], p) + if p == line.product then sign * line.quantity else 0
  {
    Times(sign, Ordered(lines[..|lines| - 1], p), lines[|lines| - 1].quantity);
  }

  lemma OneMoreMovement(db: Database, mid: Database, after: Database, added: seq<Movement>)
    requires Appends(db, mid) && after.movements == mid.movements + added
    ensures Appends(db, after) && News(db, after) == News(db, mid) + added
  {
  }

  lemma OneMoreTold(news: seq<Movement>, lines: seq<Line>, m: Movement, kind: MovementType, sign: int, reference: nat)
    requires lines != [] && |news| == |lines| - 1 && Tells(m, lines[|lines| - 1], kind, sign, reference)
    requires forall i | 0 <= i < |news| :: Tells(news[i], lines[..|lines| - 1][i], kind, sign, reference)
    ensures forall i | 0 <= i < |lines| :: Tells((news + [m])[i], lines[i], kind, sign, reference)
  {
    hide Tells;
    forall i | 0 <= i < |lines| ensures Tells((news + [m])[i], lines[i], kind, sign, reference) {
      if i < |news| {
        assert Tells(news[i], lines[..|lines| - 1][i], kind, sign, reference);
      }
    }
  }

  lemma OneMoreLine(db: Database, mid: Database, after: Database, lines: seq<Line>, e: Effects, reference: nat)
    requires lines != [] && LinesMoved(db, mid, lines[..|lines| - 1], e, reference)
    requires var line := lines[|lines| - 1];
             Moved(mid, after, line.product, e.onHand * line.quantity, e.reserved * line.quantity, e.kind, reference)
    ensures LinesMoved(db, after, lines, e, reference)
  {
    hide OnHand, Reserved, Ordered, News;
    var added := after.movements[|mid.movements|..];
    assert after.movements == mid.movements + added;
    OneMoreMovement(db, mid, after, added);
    if e.kind.Some? {
      OneMoreTold(News(db, mid), lines, added[0], e.kind.value, e.onHand, reference);
      assert added == [added[0]];
    }
    forall p: nat
      ensures OnHand(after, p) == OnHand(db, p) + e.onHand * Ordered(lines, p)
      ensures Reserved(after, p) == Reserved(db, p) + e.reserved * Ordered(lines, p)
    {
      OneMoreOrdered(lines, e.onHand, p);
      OneMoreOrdered(lines, e.reserved, p);
    }
  }

  lemma {:induction false} LinesLaw(db: Database, kind: ActionKind, lines: seq<Line>, reference: nat, points: seq<int>)
    requires ApplyActions(db, ActionsFor(kind, lines, reference), points).Success?
    ensures LinesMoved(db, ApplyActions(db, ActionsFor(kind, lines, reference), points).value, lines, EffectsOf(kind), reference)
  {
    hide ApplyAction, Moved;
    var actions := ActionsFor(kind, lines, reference);
    if lines == [] {
      NoLines(db, EffectsOf(kind), reference);
    } else {
      hide LinesMoved;
      var last := |lines| - 1;
      assert actions[..last] == ActionsFor(kind, lines[..last], reference);
      var mid := ApplyActions(db, actions[..last], points).value;
      LinesLaw(db, kind, lines[..last], reference, points);
      ActionLaw(mid, actions[last], PointAt(points, last));
      OneMoreLine(db, mid, ApplyActions(db, actions, points).value, lines, EffectsOf(kind), reference);
    }
  }

  lemma NoLines(db: Database, e: Effects, reference: nat)
    ensures LinesMoved(db, db, [], e, reference)
  {
  }

  lemma {:induction false} TotalOfNews(news: seq<Movement>, lines: seq<Line>, kind: MovementType, sign: int, reference: nat, p: nat)
    requires |news| == |lines| && forall i | 0 <= i < |lines| :: Tells(news[i], lines[i], kind, sign, reference)
    ensures MovementTotal(news, p) == sign * Ordered(lines, p)
  {
    if lines != [] {
      var last := |lines| - 1;
      TotalOfNews(news[..last], lines[..last], kind, sign, reference, p);
      assert Tells(news[last], lines[last], kind, sign, reference);
      assert sign * (Ordered(lines[..last], p) + lines[last].quantity)
             == sign * Ordered(lines[..last], p) + sign * lines[last].quantity;
    }
  }

  lemma {:induction false} SortLength(lines: seq<Line>)
    ensures |SortByProduct(lines)| == |lines|
  {
    if lines != [] {
      SortLength(lines[1..]);
      InsertLength(lines[0], SortByProduct(lines[1..]));
    }
  }

  lemma {:induction false} InsertLength(line: Line, lines: seq<Line>)
    ensures |Insert(line, lines)| == |lines| + 1
  {
    if lines != [] && line.product > lines[0].product {
      InsertLength(line, lines[1..]);
    }
  }

  lemma SortedTotals(lines: seq<Line>)
    ensures |SortByProduct(lines)| == |lines|
    ensures forall p: nat :: Ordered(SortByProduct(lines), p) == Ordered(lines, p)
  {
    SortLength(lines);
    forall p: nat ensures Ordered(SortByProduct(lines), p) == Ordered(lines, p) {
      OrderedBothWays(SortByProduct(lines), p);
      OrderedBothWays(lines, p);
      SortTotals(lines, p);
    }
  }

  /** What the lines of a command did, in whatever order it worked on them. */
  ghost predicate Did(before: Database, after: Database, lines: seq<Line>, onHand: int, reserved: int,
                      kind: Option<MovementType>, reference: nat) {
    && after.reorderPoints == before.reorderPoints && Appends(before, after)
    && (forall p: nat :: OnHand(after, p) == OnHand(before, p) + onHand * Ordered(lines, p))
    && (forall p: nat :: Reserved(after, p) == Reserved(before, p) + reserved * Ordered(lines, p))
    && |News(before, after)| == (if kind.Some? then |lines| else 0)
    && (forall m | m in News(before, after) :: Some(m.kind) == kind && m.reference == reference)
    && (forall p: nat :: MovementTotal(News(before, after), p) == onHand * Ordered(lines, p))
  }

  lemma SortedDid(db: Database, after: Database, lines: seq<Line>, e: Effects, reference: nat)
    requires LinesMoved(db, after, SortByProduct(lines), e, reference) && (e.kind.None? ==> e.onHand == 0)
    ensures Did(db, after, lines, e.onHand, e.reserved, e.kind, reference)
  {
    SortedTotals(lines);
    var sorted, news := SortByProduct(lines), News(db, after);
    forall p: nat ensures MovementTotal(news, p) == e.onHand * Ordered(lines, p) {
      if e.kind.Some? {
        TotalOfNews(news, sorted, e.kind.value, e.onHand, reference, p);
      }
    }
    forall m | m in news ensures Some(m.kind) == e.kind && m.reference == reference {
      var i :| 0 <= i < |news| && news[i] == m;
      assert Tells(news[i], sorted[i], e.kind.value, e.onHand, reference);
    }
  }

  // ----- The commands -----

  /** A receipt that is accepted adds exactly its lines to the stock on hand, with one RECEIPT for each line. */
  lemma ReceiptLaw(db: Database, receipt: nat, lines: seq<Line>, rows: seq<nat>, points: seq<int>)
    requires Execute(db, Receipt(receipt, lines), rows, points).Success?
    ensures var after := Execute(db, Receipt(receipt, lines), rows, points).value;
            Did(db, after, lines, 1, 0, Some(RECEIPT), receipt) && after.orders == db.orders
  {
    hide Did, LinesMoved;
    LinesLaw(db, Receive, SortByProduct(lines), receipt, points);
    SortedDid(db, Execute(db, Receipt(receipt, lines), rows, points).value, lines, EffectsOf(Receive), receipt);
    SameOrders(db, Execute(db, Receipt(receipt, lines), rows, points).value, SortByProduct(lines), EffectsOf(Receive), receipt);
  }

  lemma SameOrders(db: Database, after: Database, lines: seq<Line>, e: Effects, reference: nat)
    requires LinesMoved(db, after, lines, e, reference)
    ensures after.orders == db.orders
  {
  }

  /** An adjustment that is accepted moves one product by its quantity, inwards or outwards, with one movement. */
  lemma AdjustmentLaw(db: Database, movement: nat, product: nat, quantity: int, inward: bool, rows: seq<nat>, points: seq<int>)
    requires Execute(db, Adjustment(movement, product, quantity, inward), rows, points).Success?
    ensures var after := Execute(db, Adjustment(movement, product, quantity, inward), rows, points).value;
            var delta, kind := if inward then quantity else -quantity, if inward then ADJUSTMENT_IN else ADJUSTMENT_OUT;
            && after.orders == db.orders && after.reorderPoints == db.reorderPoints
            && (forall p: nat :: OnHand(after, p) == OnHand(db, p) + if p == product then delta else 0)
            && (forall p: nat :: Reserved(after, p) == Reserved(db, p))
            && after.movements == db.movements + [Movement(kind, product, delta, OnHand(after, product), movement)]
  {
    hide ApplyAction;
    var a := Action(if inward then AdjustIn else AdjustOut, product, quantity, movement);
    assert [a][..0] == [] && ApplyActions(db, [a][..0], points) == Success(db);
    assert ApplyActions(db, [a], points) == ApplyAction(db, a, PointAt(points, 0));
    ActionLaw(db, a, PointAt(points, 0));
  }

  // ----- Which commands are accepted -----

  /** The row of the action's product lets it through, whatever the alerts are. */
  ghost predicate Works(db: Database, a: Action) {
    EffectOf(Row(db, a.product), 0, 0, a).Success?
  }

  ghost predicate AllWork(db: Database, actions: seq<Action>) {
    forall i | 0 <= i < |actions| :: Works(db, actions[i])
  }

  lemma AlertsDoNotRefuse(row: Option<InventoryState>, open: nat, point: int, a: Action)
    ensures var r, plain := EffectOf(row, open, point, a), EffectOf(row, 0, 0, a);
            r.Success? == plain.Success? && (r.Failure? ==> r == plain)
  {
  }

  /** The first action that its row refuses. */
  ghost predicate FirstRefused(db: Database, actions: seq<Action>, k: nat, refusal: Refusal) {
    && k < |actions| && (forall j | 0 <= j < k :: Works(db, actions[j]))
    && EffectOf(Row(db, actions[k].product), 0, 0, actions[k]) == Failure(refusal)
  }

  ghost predicate DistinctProducts(actions: seq<Action>) {
    forall i, j | 0 <= i < j < |actions| :: actions[i].product != actions[j].product
  }

  ghost predicate SameElsewhere(before: Database, after: Database, actions: seq<Action>) {
    forall p: nat | (forall i | 0 <= i < |actions| :: actions[i].product != p) :: Row(after, p) == Row(before, p)
  }

  lemma StillElsewhere(db: Database, mid: Database, actions: seq<Action>, point: int)
    requires actions != [] && SameElsewhere(db, mid, actions[..|actions| - 1])
    requires ApplyAction(mid, actions[|actions| - 1], point).Success?
    ensures SameElsewhere(db, ApplyAction(mid, actions[|actions| - 1], point).value, actions)
  {
    hide EffectOf;
    var after, last := ApplyAction(mid, actions[|actions| - 1], point).value, |actions| - 1;
    forall p: nat | (forall i | 0 <= i < |actions| :: actions[i].product != p) ensures Row(after, p) == Row(db, p) {
      assert forall i | 0 <= i < last :: actions[..last][i].product != p;
      assert actions[last].product != p;
    }
  }

  /** Actions on different products do not meet: each is accepted or refused as it would be first. */
  lemma {:induction false} DistinctActions(db: Database, actions: seq<Action>, points: seq<int>)
    requires DistinctProducts(actions)
    ensures var r := ApplyActions(db, actions, points);
            match r
            case Success(after) => SameElsewhere(db, after, actions) && AllWork(db, actions)
            case Failure(refusal) => exists k :: FirstRefused(db, actions, k, refusal)
  {
    hide EffectOf, Install;
    if actions != [] {
      var last := |actions| - 1;
      var front := actions[..last];
      DistinctActions(db, front, points);
      match ApplyActions(db, front, points) {
        case Failure(refusal) =>
          var k: nat :| FirstRefused(db, front, k, refusal);
          assert FirstRefused(db, actions, k, refusal) by {
            assert forall j | 0 <= j < k :: actions[j] == front[j];
          }
        case Success(mid) =>
          LastAction(db, mid, actions, PointAt(points, last));
      }
    }
  }

  lemma LastAction(db: Database, mid: Database, actions: seq<Action>, point: int)
    requires actions != [] && DistinctProducts(actions) && SameElsewhere(db, mid, actions[..|actions| - 1])
    requires AllWork(db, actions[..|actions| - 1])
    ensures var a := actions[|actions| - 1];
            match ApplyAction(mid, a, point)
            case Success(after) => SameElsewhere(db, after, actions) && AllWork(db, actions)
            case Failure(refusal) => FirstRefused(db, actions, |actions| - 1, refusal)
  {
    hide EffectOf, Install;
    var last := |actions| - 1;
    var a := actions[last];
    assert Row(mid, a.product) == Row(db, a.product) by {
      assert forall i | 0 <= i < last :: actions[..last][i].product != a.product;
    }
    AlertsDoNotRefuse(Row(db, a.product), mid.openAlerts[a.product], point, a);
    forall i | 0 <= i < last ensures Works(db, actions[i]) {
      assert Works(db, actions[..last][i]);
    }
    if ApplyAction(mid, a, point).Success? {
      StillElsewhere(db, mid, actions, point);
    }
  }

  /** There is enough of a line's product that no order has been promised. */
  ghost predicate Covered(db: Database, line: Line) {
    && line.product in db.balances
    && db.balances[line.product].onHand - db.balances[line.product].reserved >= line.quantity
  }

  ghost predicate AllCovered(db: Database, lines: seq<Line>) {
    forall i | 0 <= i < |lines| :: Covered(db, lines[i])
  }

  /** Of the lines that are not covered, the one of the least product. */
  ghost predicate FirstUncovered(db: Database, lines: seq<Line>, line: Line) {
    && line in lines && !Covered(db, line)
    && forall other | other in lines && other.product < line.product :: Covered(db, other)
  }

  lemma ReserveRefusal(db: Database, a: Action)
    requires a.kind == Reserve
    ensures var line := Line(a.product, a.quantity);
            EffectOf(Row(db, a.product), 0, 0, a).Success? <==> Covered(db, line)
    ensures var r := EffectOf(Row(db, a.product), 0, 0, a);
            r.Failure? ==> r == Failure(if a.product in db.balances then InsufficientStock else NoBalance)
  {
  }

  lemma ActionsOfSorted(kind: ActionKind, lines: seq<Line>, reference: nat)
    requires ValidLines(lines)
    ensures DistinctProducts(ActionsFor(kind, SortByProduct(lines), reference))
  {
    SortKeepsLines(lines);
  }

  /** A draft can be confirmed exactly when every line of it is covered; otherwise the first line that is not says why. */
  lemma ConfirmAcceptedIff(db: Database, id: nat, rows: seq<nat>, points: seq<int>)
    requires Consistent(db) && id < |db.orders| && db.orders[id].status == DRAFT
    ensures var r, lines := Execute(db, Transition(id, CONFIRMED), rows, points), db.orders[id].lines;
            && (r.Success? <==> AllCovered(db, lines))
            && (r.Failure? ==>
                  exists line :: FirstUncovered(db, lines, line)
                    && r == Failure(if line.product in db.balances then InsufficientStock else NoBalance))
  {
    hide EffectOf, Covered, Consistent;
    var lines := db.orders[id].lines;
    assert ValidLines(lines) by {
      OrderHasValidLines(db, id);
    }
    var sorted := SortByProduct(lines);
    var actions := ActionsFor(Reserve, sorted, id);
    ActionsOfSorted(Reserve, lines, id);
    SortKeepsLines(lines);
    DistinctActions(db, actions, points);
    assert Plan(db, Transition(id, CONFIRMED), rows) == actions;
    match ApplyActions(db, actions, points) {
      case Success(_) =>
        forall i | 0 <= i < |lines| ensures Covered(db, lines[i]) {
          assert lines[i] in sorted;
          var k :| 0 <= k < |sorted| && sorted[k] == lines[i];
          assert Works(db, actions[k]);
          ReserveRefusal(db, actions[k]);
        }
      case Failure(refusal) =>
        var k: nat :| FirstRefused(db, actions, k, refusal);
        var line := sorted[k];
        ReserveRefusal(db, actions[k]);
        assert line in lines && !Covered(db, line);
        forall other | other in lines && other.product < line.product ensures Covered(db, other) {
          var j :| 0 <= j < |sorted| && sorted[j] == other;
          assert Works(db, actions[j]);
          ReserveRefusal(db, actions[j]);
        }
        assert FirstUncovered(db, lines, line);
    }
  }

  lemma OrderHasValidLines(db: Database, id: nat)
    requires Consistent(db) && id < |db.orders|
    ensures ValidLines(db.orders[id].lines)
  {
  }

  /** Shipping or releasing the lines of a CONFIRMED order is never refused. */
  lemma ConfirmedGoesThrough(db: Database, id: nat, to: OrderStatus, points: seq<int>)
    requires Consistent(db) && id < |db.orders| && db.orders[id].status == CONFIRMED && to in {CANCELLED, FULFILLED}
    ensures ApplyActions(db, TransitionActions(id, db.orders[id], to), points).Success?
  {
    hide EffectOf, Consistent, SameElsewhere;
    var actions := TransitionActions(id, db.orders[id], to);
    OrderHasValidLines(db, id);
    ActionsOfSorted(if to == FULFILLED then Ship else Release, db.orders[id].lines, id);
    DistinctActions(db, actions, points);
    if ApplyActions(db, actions, points).Failure? {
      var k: nat :| FirstRefused(db, actions, k, ApplyActions(db, actions, points).error);
      ConfirmedLinesAreCovered(db, id, to, actions[k], 0);
      AlertsDoNotRefuse(Row(db, actions[k].product), db.openAlerts[actions[k].product], 0, actions[k]);
    }
  }

  /**
   The other transitions: a draft can always be cancelled, a CONFIRMED order always cancelled or fulfilled, and
   nothing else is allowed; so a FULFILLED or CANCELLED order stays as it is.
   */
  lemma TransitionAllowedIff(db: Database, id: nat, to: OrderStatus, rows: seq<nat>, points: seq<int>)
    requires Consistent(db)
    ensures var r := Execute(db, Transition(id, to), rows, points);
            if id >= |db.orders| then r == Failure(OrderNotFound)
            else
              match (db.orders[id].status, to)
              case (DRAFT, CONFIRMED) => r != Failure(BadTransition)
              case (DRAFT, CANCELLED) => r.Success?
              case (CONFIRMED, CANCELLED) => r.Success?
              case (CONFIRMED, FULFILLED) => r.Success?
              case _ => r == Failure(BadTransition)
  {
    hide Consistent, ApplyAction, EffectOf;
    if id < |db.orders| {
      var from := db.orders[id].status;
      if from == CONFIRMED && to in {CANCELLED, FULFILLED} {
        ConfirmedGoesThrough(db, id, to, points);
      } else if from == DRAFT && to == CONFIRMED {
        ConfirmAcceptedIff(db, id, rows, points);
      }
    }
  }

  /** The order takes its new status and keeps its lines; stock is promised, given back or sold as they say. */
  lemma TransitionLaw(db: Database, id: nat, to: OrderStatus, rows: seq<nat>, points: seq<int>)
    requires Execute(db, Transition(id, to), rows, points).Success?
    ensures id < |db.orders|
    ensures var after, order := Execute(db, Transition(id, to), rows, points).value, db.orders[id];
            && after.orders == db.orders[id := Order(to, order.lines)]
            && match (order.status, to)
               case (DRAFT, CONFIRMED) => Did(db, after, order.lines, 0, 1, None, id)
               case (CONFIRMED, CANCELLED) => Did(db, after, order.lines, 0, -1, None, id)
               case (CONFIRMED, FULFILLED) => Did(db, after, order.lines, -1, -1, Some(SALE), id)
               case _ => after == db.(orders := after.orders)
  {
    hide Did, LinesMoved, ApplyActions;
    var order := db.orders[id];
    var after, sorted := Execute(db, Transition(id, to), rows, points).value, SortByProduct(order.lines);
    if order.status == DRAFT && to == CANCELLED {
      NoActions(db, points);
    } else {
      var kind := if to == CONFIRMED then Reserve else if to == FULFILLED then Ship else Release;
      var mid := ApplyActions(db, ActionsFor(kind, sorted, id), points).value;
      LinesLaw(db, kind, sorted, id, points);
      SameOrders(db, mid, sorted, EffectsOf(kind), id);
      SortedDid(db, mid, order.lines, EffectsOf(kind), id);
      OrdersDoNotMatter(db, mid, after, order.lines, EffectsOf(kind), id);
    }
  }

  lemma NoActions(db: Database, points: seq<int>)
    ensures ApplyActions(db, [], points) == Success(db)
  {
  }

  lemma OrdersDoNotMatter(db: Database, mid: Database, after: Database, lines: seq<Line>, e: Effects, reference: nat)
    requires Did(db, mid, lines, e.onHand, e.reserved, e.kind, reference) && after == mid.(orders := after.orders)
    ensures Did(db, after, lines, e.onHand, e.reserved, e.kind, reference)
  {
    assert forall p: nat :: OnHand(after, p) == OnHand(mid, p) && Reserved(after, p) == Reserved(mid, p);
  }

  /** A receipt is accepted exactly when its products exist and no stock outgrows the safe integers. */
  lemma ReceiptAcceptedIff(db: Database, receipt: nat, lines: seq<Line>, rows: seq<nat>, points: seq<int>)
    requires Consistent(db) && ValidLines(lines)
    ensures var r := Execute(db, Receipt(receipt, lines), rows, points);
            && (r.Success? <==> forall i | 0 <= i < |lines| ::
                  && lines[i].product in db.reorderPoints
                  && OnHand(db, lines[i].product) + lines[i].quantity <= MAX_SAFE_INTEGER)
            && (r == Failure(ProductNotFound) <==> exists i :: 0 <= i < |lines| && lines[i].product !in db.reorderPoints)
  {
    hide EffectOf, Consistent, SameElsewhere;
    var sorted := SortByProduct(lines);
    var actions := ActionsFor(Receive, sorted, receipt);
    SortKeepsLines(lines);
    ActionsOfSorted(Receive, lines, receipt);
    DistinctActions(db, actions, points);
    InRangeOf(db);
    match ApplyActions(db, actions, points) {
      case Success(_) =>
        forall i | 0 <= i < |lines| ensures OnHand(db, lines[i].product) + lines[i].quantity <= MAX_SAFE_INTEGER {
          assert lines[i] in sorted;
          var k :| 0 <= k < |sorted| && sorted[k] == lines[i];
          assert Works(db, actions[k]);
          ActionAcceptedIff(db, actions[k], 0, 0);
        }
      case Failure(refusal) =>
        var k: nat :| FirstRefused(db, actions, k, refusal);
        ActionAcceptedIff(db, actions[k], 0, 0);
        ReceiveRefusal(db, actions[k]);
        assert sorted[k] in lines;
        var i :| 0 <= i < |lines| && lines[i] == sorted[k];
    }
  }

  lemma InRangeOf(db: Database)
    requires Consistent(db)
    ensures BalancesInRange(db)
  {
  }

  lemma ReceiveRefusal(db: Database, a: Action)
    requires a.kind == Receive && EffectOf(Row(db, a.product), 0, 0, a).Failure?
    ensures EffectOf(Row(db, a.product), 0, 0, a).error.BrokenInvariant?
  {
  }

  /** An adjustment is accepted exactly when its product exists and the stock stays between what is reserved and the safe integers. */
  lemma AdjustmentAcceptedIff(db: Database, movement: nat, product: nat, quantity: int, inward: bool, rows: seq<nat>, points: seq<int>)
    requires Consistent(db) && quantity > 0
    ensures Execute(db, Adjustment(movement, product, quantity, inward), rows, points).Success?
            <==> product in db.reorderPoints
                 && if inward then OnHand(db, product) + quantity <= MAX_SAFE_INTEGER
                    else Reserved(db, product) <= OnHand(db, product) - quantity
  {
    hide EffectOf, Consistent;
    InRangeOf(db);
    var a := Action(if inward then AdjustIn else AdjustOut, product, quantity, movement);
    assert [a][..0] == [] && ApplyActions(db, [a][..0], points) == Success(db);
    assert ApplyActions(db, [a], points) == ApplyAction(db, a, PointAt(points, 0));
    ActionAcceptedIff(db, a, db.openAlerts[product], PointAt(points, 0));
  }

  /** A new draft needs only products that exist, a changed one a draft as well; neither touches anything else. */
  lemma DraftLaw(db: Database, id: nat, lines: seq<Line>, rows: seq<nat>, points: seq<int>)
    ensures var known := forall i | 0 <= i < |lines| :: lines[i].product in db.reorderPoints;
            && Execute(db, CreateDraft(lines), rows, points)
               == (if known then Success(db.(orders := db.orders + [Order(DRAFT, lines)])) else Failure(ProductNotFound))
            && Execute(db, EditDraft(id, lines), rows, points)
               == (if id >= |db.orders| then Failure(OrderNotFound)
                   else if db.orders[id].status != DRAFT then Failure(NotDraft)
                   else if !known then Failure(ProductNotFound)
                   else Success(db.(orders := db.orders[id := Order(DRAFT, lines)])))
  {
    NoActions(db, points);
  }
}

/**
 A pass over every balance (reconcileOrganization): it leaves every alert right whatever it found, what
 it reports is the change it made, and a second pass finds nothing to do.
 */
module StockReconciliation {
  import opened Wrappers
  import opened Projection
  import opened StockLedger
  import opened StockInvariants
  import Enumeration
  import opened StockAlone

  // ----- Reconciling every balance -----

  ghost function Decision(db: Database, p: nat): LowStockTransition {
    if p in db.balances
    then ReconcileTransition(db.balances[p].Available(), ReorderPoint(db, p), db.openAlerts[p] > 0)
    else NONE
  }

  /** How many of `rows` need the given alert change. */
  ghost function Count(db: Database, rows: seq<nat>, t: LowStockTransition): nat {
    if rows == [] then 0
    else Count(db, rows[..|rows| - 1], t) + (if Decision(db, rows[|rows| - 1]) == t then 1 else 0)
  }

  ghost predicate AllAlertsRight(db: Database) {
    forall p | p in db.balances :: AlertRight(db, p, ReorderPoint(db, p))
  }

  /** The open alerts after scanning `rows`, all of which have a balance. */
  ghost function AlertsAfter(db: Database, rows: seq<nat>): multiset<nat>
    requires forall p | p in rows :: p in db.balances
  {
    if rows == [] then db.openAlerts
    else
      var p := rows[|rows| - 1];
      AlertsAfter(db, rows[..|rows| - 1])
        [p := ReconcileAlerts(db.balances[p].Available(), ReorderPoint(db, p), db.openAlerts[p])]
  }

  lemma {:induction false} AlertsAfterPointwise(db: Database, rows: seq<nat>)
    requires forall p | p in rows :: p in db.balances
    ensures forall p: nat ::
              AlertsAfter(db, rows)[p]
              == if p in rows then ReconcileAlerts(db.balances[p].Available(), ReorderPoint(db, p), db.openAlerts[p])
                 else db.openAlerts[p]
  {
    if rows != [] {
      AlertsAfterPointwise(db, rows[..|rows| - 1]);
      assert rows == rows[..|rows| - 1] + [rows[|rows| - 1]];
    }
  }

  /** Scanning one more row changes that product's alert by the decision for it, and nothing else. */
  lemma ScanNext(db: Database, alerts: multiset<nat>, p: nat)
    requires p in db.balances && alerts[p] == db.openAlerts[p]
    ensures ApplyAction(db.(openAlerts := alerts), Action(Scan, p, 0, 0), ReorderPoint(db, p))
            == Success(db.(openAlerts :=
                 alerts[p := ReconcileAlerts(db.balances[p].Available(), ReorderPoint(db, p), db.openAlerts[p])]))
  {
    assert db.balances[p := db.balances[p]] == db.balances;
    assert db.movements + [] == db.movements;
  }

  /** A reconciliation changes the alerts of the rows it scans and nothing else. */
  lemma {:induction false} ScanReconciles(db: Database, rows: seq<nat>)
    requires forall p | p in rows :: p in db.balances
    requires forall i, j | 0 <= i < j < |rows| :: rows[i] < rows[j]
    ensures ApplyNow(db, ScanActions(rows)) == Success(db.(openAlerts := AlertsAfter(db, rows)))
  {
    if rows != [] {
      var last := |rows| - 1;
      ScanReconciles(db, rows[..last]);
      var actions := ScanActions(rows);
      assert actions[..last] == ScanActions(rows[..last]) && actions[..last + 1] == actions;
      ApplyNext(db, actions, last);
      assert rows[last] !in rows[..last] && rows[last] in rows;
      AlertsAfterPointwise(db, rows[..last]);
      ScanNext(db, AlertsAfter(db, rows[..last]), rows[last]);
    }
  }

  lemma ReconciledIsRight(available: int, point: int, open: nat)
    requires open <= 1
    ensures ReconcileAlerts(available, point, open) == if available <= point then 1 else 0
  {
  }

  lemma ReconcileIsScan(db: Database)
    ensures var rows := Enumeration.Ascending(db.balances.Keys);
            && (forall p | p in rows :: p in db.balances)
            && ExecuteNow(db, Reconcile, rows) == Success(db.(openAlerts := AlertsAfter(db, rows)))
  {
    var rows := Enumeration.Ascending(db.balances.Keys);
    Enumeration.AscendingIsSorted(db.balances.Keys);
    ScanReconciles(db, rows);
    assert Plan(db, Reconcile, rows) == ScanActions(rows);
  }

  /** However wrong the alerts were, for instance after reorder points were edited, one pass puts every one right. */
  lemma ReconcileRepairs(db: Database)
    requires OneAlertPerProduct(db)
    ensures var r := ExecuteNow(db, Reconcile, Enumeration.Ascending(db.balances.Keys));
            && r.Success? && AllAlertsRight(r.value) && OneAlertPerProduct(r.value)
            && r.value == db.(openAlerts := r.value.openAlerts)
            && forall p | p in db.balances && p in db.reorderPoints ::
                 var balance := db.balances[p];
                 r.value.openAlerts[p] == if balance.onHand - balance.reserved <= db.reorderPoints[p] then 1 else 0
  {
    var rows := Enumeration.Ascending(db.balances.Keys);
    ReconcileIsScan(db);
    Enumeration.AscendingIsSorted(db.balances.Keys);
    AlertsAfterPointwise(db, rows);
    var after := db.(openAlerts := AlertsAfter(db, rows));
    forall p: nat ensures after.openAlerts[p] <= 1 && (p !in db.balances ==> after.openAlerts[p] == 0)
      ensures p in db.balances ==> AlertRight(after, p, ReorderPoint(db, p))
    {
      if p in db.balances {
        assert p in rows;
        ReconciledIsRight(db.balances[p].Available(), ReorderPoint(db, p), db.openAlerts[p]);
      } else {
        assert p !in rows;
      }
    }
  }

  /** A pass over right alerts has nothing to do, so a second pass right after the first reports zero changes. */
  lemma {:induction false} RightAlertsNeedNothing(db: Database, rows: seq<nat>)
    requires AllAlertsRight(db)
    ensures Count(db, rows, OPEN) == 0 && Count(db, rows, RESOLVE) == 0
  {
    if rows != [] {
      RightAlertsNeedNothing(db, rows[..|rows| - 1]);
      var p := rows[|rows| - 1];
      assert p in db.balances ==> AlertRight(db, p, ReorderPoint(db, p));
    }
  }

  lemma MultisetUpdateSize(m: multiset<nat>, p: nat, n: nat)
    ensures |m[p := n]| == |m| - m[p] + n
  {
    var rest := m[p := 0];
    assert m == rest + multiset{}[p := m[p]];
    assert m[p := n] == rest + multiset{}[p := n];
  }

  /** Opened minus resolved is the change in the number of open alerts. */
  lemma {:induction false} CountsBalance(db: Database, rows: seq<nat>)
    requires forall p | p in rows :: p in db.balances && db.openAlerts[p] <= 1
    requires forall i, j | 0 <= i < j < |rows| :: rows[i] < rows[j]
    ensures |AlertsAfter(db, rows)| == |db.openAlerts| + Count(db, rows, OPEN) - Count(db, rows, RESOLVE)
  {
    if rows != [] {
      var last := |rows| - 1;
      var p := rows[last];
      CountsBalance(db, rows[..last]);
      assert p !in rows[..last] && p in rows;
      AlertsAfterPointwise(db, rows[..last]);
      MultisetUpdateSize(AlertsAfter(db, rows[..last]), p,
                         ReconcileAlerts(db.balances[p].Available(), ReorderPoint(db, p), db.openAlerts[p]));
    }
  }

  /** A pass over right alerts changes nothing. */
  lemma RightAlertsStay(db: Database)
    requires AllAlertsRight(db)
    ensures ExecuteNow(db, Reconcile, Enumeration.Ascending(db.balances.Keys)) == Success(db)
  {
    var rows := Enumeration.Ascending(db.balances.Keys);
    ReconcileIsScan(db);
    AlertsAfterPointwise(db, rows);
    forall p: nat ensures AlertsAfter(db, rows)[p] == db.openAlerts[p] {
      if p in rows {
        assert AlertRight(db, p, ReorderPoint(db, p));
      }
    }
    assert AlertsAfter(db, rows) == db.openAlerts;
  }

  /** What a pass reports is the change it made, and the pass after it reports and changes nothing. */
  lemma ReconcileReportsItsChange(db: Database)
    requires OneAlertPerProduct(db)
    ensures var rows := Enumeration.Ascending(db.balances.Keys);
            var r := ExecuteNow(db, Reconcile, rows);
            && r.Success?
            && |r.value.openAlerts| == |db.openAlerts| + Count(db, rows, OPEN) - Count(db, rows, RESOLVE)
            && Count(r.value, rows, OPEN) == 0 && Count(r.value, rows, RESOLVE) == 0
            && ExecuteNow(r.value, Reconcile, rows) == r
  {
    var rows := Enumeration.Ascending(db.balances.Keys);
    Enumeration.AscendingIsSorted(db.balances.Keys);
    ReconcileIsScan(db);
    ReconcileRepairs(db);
    CountsBalance(db, rows);
    var after := ExecuteNow(db, Reconcile, rows).value;
    RightAlertsNeedNothing(after, rows);
    RightAlertsStay(after);
  }
}

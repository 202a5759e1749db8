/**
 How far the alerts that commits leave behind can be trusted when reorder points are edited at the
 same time.
 */
module StockAlerts {
  import opened Wrappers
  import opened Projection
  import opened StockLedger
  import opened StockInvariants
  import opened StockConcurrency
  import StockReconciliation

  /**
   The reorder point an alert was decided with can be out of date at commit, because every transaction
   reads it before it waits for the balance row. The alert is right for the current point
   exactly when stock is low for both points or for neither; the next reconciliation repairs the rest.
   */
  lemma CommitAlertRightForCurrentPointIff(reorderPoints: map<nat, int>, steps: seq<Step>, p: nat, i: nat)
    requires var s := Run(Initially(reorderPoints), steps);
             Enabled(s, Commit(p)) && i < |s.processes[p].actions|
    ensures var s := Run(Initially(reorderPoints), steps);
            var pr := s.processes[p];
            var after := Do(s, Commit(p)).db;
            var product := pr.actions[i].product;
            && i < |pr.points| && product in after.balances
            && var available := after.balances[product].Available();
               (AlertRight(after, product, ReorderPoint(after, product))
                <==> (available <= pr.points[i] <==> available <= ReorderPoint(after, product)))
  {
    CommitSetsAlerts(reorderPoints, steps, p, i);
  }

  ghost function StaleRun(): seq<Step> {
    [Spawn(Adjustment(1, 0, 5, true), None), TakeKey(0), Open(0), SetReorderPoint(0, 10), TakeRow(0), Work(0), Commit(0)]
  }

  lemma StaleRunPrefix()
    ensures Run(Initially(map[0 := 0]), StaleRun()[..4]) == StaleSystem(0, [], [])
  {
    var steps := StaleRun();
    var s0 := Initially(map[0 := 0]);
    var command := Adjustment(1, 0, 5, true);
    var action := Action(AdjustIn, 0, 5, 1);
    assert steps[..0] == [] && steps[..1][..0] == steps[..0];
    assert Run(s0, steps[..1]).processes == [Process(command, None, Starting, false, [], [], 0, [], [], [])];
    assert steps[..2][..1] == steps[..1];
    assert Run(s0, steps[..2]).processes == [Process(command, None, Opening, false, [], [], 0, [], [], [])];
    assert steps[..3][..2] == steps[..2];
    assert Plan(s0.db, command, []) == [action] && EarlyPoints(s0.db, command, [action]) == [0];
    assert Run(s0, steps[..3]).processes == [Process(command, None, Working, false, [], [action], 0, [0], [], [])];
    assert steps[..4][..3] == steps[..3];
  }

  ghost function StaleSystem(locked: nat, effects: seq<Effect>, decisions: seq<LowStockTransition>): System {
    System(Database(map[], [], [], multiset{}, map[0 := 10]),
           [Process(Adjustment(1, 0, 5, true), None, Working, false, [], [Action(AdjustIn, 0, 5, 1)], locked, [0], effects,
                    decisions)])
  }

  lemma StaleTakeRow()
    ensures Do(StaleSystem(0, [], []), TakeRow(0)) == StaleSystem(1, [], [])
  {
    assert StaleSystem(1, [], []).processes == [StaleSystem(0, [], []).processes[0].(locked := 1)];
  }

  lemma StaleEffect()
    ensures EffectOf(None, 0, 0, Action(AdjustIn, 0, 5, 1))
            == Success(Effect(InventoryState(5, 0), 0, [Movement(ADJUSTMENT_IN, 0, 5, 5, 1)]))
  {
    assert NextBalance(InventoryState(0, 0), Action(AdjustIn, 0, 5, 1)) == Success(InventoryState(5, 0));
    assert ReconcileAlerts(5, 0, 0) == 0;
  }

  lemma StaleWork()
    ensures Do(StaleSystem(1, [], []), Work(0))
            == StaleSystem(1, [Effect(InventoryState(5, 0), 0, [Movement(ADJUSTMENT_IN, 0, 5, 5, 1)])], [NONE])
  {
    var s := StaleSystem(1, [], []);
    var e := Effect(InventoryState(5, 0), 0, [Movement(ADJUSTMENT_IN, 0, 5, 5, 1)]);
    StaleEffect();
    assert Row(s.db, 0) == None && s.db.openAlerts[0] == 0 && CanWork(s.processes[0]);
    var after := WorkProcess(s.db, s.processes[0]);
    assert after == s.processes[0].(effects := [e], decisions := [NONE]);
    assert Do(s, Work(0)).processes == [after];
  }

  lemma StaleRunBeforeCommit()
    ensures Run(Initially(map[0 := 0]), StaleRun()[..6])
            == StaleSystem(1, [Effect(InventoryState(5, 0), 0, [Movement(ADJUSTMENT_IN, 0, 5, 5, 1)])], [NONE])
  {
    StaleRunPrefix();
    StaleTakeRow();
    StaleWork();
    assert StaleRun()[..5][..4] == StaleRun()[..4];
    assert StaleRun()[..6][..5] == StaleRun()[..5];
  }

  /** A run in which the point is edited between that read and the commit: stock is low and no alert is open. */
  lemma StalePointMissesAlert()
    ensures var db := Run(Initially(map[0 := 0]), StaleRun()).db;
            && 0 in db.balances && db.balances[0].Available() == 5
            && ReorderPoint(db, 0) == 10 && db.openAlerts[0] == 0
  {
    StaleRunBeforeCommit();
    assert StaleRun()[..|StaleRun()| - 1] == StaleRun()[..6];
    var effect := Effect(InventoryState(5, 0), 0, [Movement(ADJUSTMENT_IN, 0, 5, 5, 1)]);
    assert [effect][..0] == [];
  }

  // ----- What a commit reports -----

  function Tally(decisions: seq<LowStockTransition>, t: LowStockTransition): nat {
    if decisions == [] then 0
    else Tally(decisions[..|decisions| - 1], t) + if decisions[|decisions| - 1] == t then 1 else 0
  }

  lemma DecisionChangesOne(balance: InventoryState, open: nat, point: int)
    requires open <= 1
    ensures ReconcileAlerts(balance.Available(), point, open)
            == open + (match DecisionFor(balance, open, point) case OPEN => 1 case RESOLVE => -1 case NONE => 0)
  {
  }

  lemma TallyNext(decisions: seq<LowStockTransition>, n: nat, t: LowStockTransition)
    requires n < |decisions|
    ensures Tally(decisions[..n + 1], t) == Tally(decisions[..n], t) + if decisions[n] == t then 1 else 0
  {
    assert decisions[..n + 1][..n] == decisions[..n];
  }

  lemma PublishNothing(db: Database, actions: seq<Action>)
    ensures Publish(db, actions, []) == db
  {
  }

  lemma {:induction false} PublishTally(db: Database, pr: Process, n: nat)
    requires WorkingOk(db, pr) && OneAlertPerProduct(db) && n <= |pr.effects|
    ensures |Publish(db, pr.actions, pr.effects[..n]).openAlerts|
            == |db.openAlerts| + Tally(pr.decisions[..n], OPEN) - Tally(pr.decisions[..n], RESOLVE)
  {
    hide EffectCurrent, Plan, Admit, EffectOf, Publish;
    if n == 0 {
      PublishNothing(db, pr.actions);
      assert pr.effects[..0] == [] && pr.decisions[..0] == [];
    } else {
      var product, mid := pr.actions[n - 1].product, Publish(db, pr.actions, pr.effects[..n - 1]);
      PublishTally(db, pr, n - 1);
      AlertsUntouched(db, pr, n - 1);
      PublishNext(db, pr.actions, pr.effects, n - 1);
      EffectDecides(db, pr, n - 1);
      StockReconciliation.MultisetUpdateSize(mid.openAlerts, product, pr.effects[n - 1].openAlerts);
      TallyNext(pr.decisions, n - 1, OPEN);
      TallyNext(pr.decisions, n - 1, RESOLVE);
    }
  }

  /** Publishing the first n effects leaves the product of the next one alone. */
  lemma AlertsUntouched(db: Database, pr: Process, n: nat)
    requires n < |pr.effects| <= |pr.actions| && DistinctRows(pr.actions)
    ensures Publish(db, pr.actions, pr.effects[..n]).openAlerts[pr.actions[n].product] == db.openAlerts[pr.actions[n].product]
  {
    PublishFrame(db, pr.actions, pr.effects[..n]);
  }

  /** A buffered effect changes the open alerts of its product by what was decided. */
  lemma EffectDecides(db: Database, pr: Process, i: nat)
    requires WorkingOk(db, pr) && OneAlertPerProduct(db) && i < |pr.effects|
    ensures pr.effects[i].openAlerts == db.openAlerts[pr.actions[i].product]
              + (match pr.decisions[i] case OPEN => 1 case RESOLVE => -1 case NONE => 0)
  {
    assert EffectCurrent(db, pr, i);
    DecisionChangesOne(pr.effects[i].balance, db.openAlerts[pr.actions[i].product], pr.points[i]);
  }

  /** In every run, the alerts a commit opens and resolves are those its transaction counted while it worked. */
  lemma CommitCountsItsChange(reorderPoints: map<nat, int>, steps: seq<Step>, p: nat)
    requires Enabled(Run(Initially(reorderPoints), steps), Commit(p))
    ensures var s := Run(Initially(reorderPoints), steps);
            var decisions := s.processes[p].decisions;
            |Do(s, Commit(p)).db.openAlerts| == |s.db.openAlerts| + Tally(decisions, OPEN) - Tally(decisions, RESOLVE)
  {
    InitiallyOk(reorderPoints);
    RunKeepsOk(Initially(reorderPoints), steps);
    var s := Run(Initially(reorderPoints), steps);
    var pr := s.processes[p];
    assert ProcessOk(s.db, pr);
    PublishTally(s.db, pr, |pr.effects|);
    assert pr.effects[..|pr.effects|] == pr.effects && pr.decisions[..|pr.decisions|] == pr.decisions;
  }

  lemma ScanKeepsBalance(row: Option<InventoryState>, open: nat, point: int, product: nat, e: Effect)
    requires EffectOf(row, open, point, Action(Scan, product, 0, 0)) == Success(e)
    ensures row == Some(e.balance) && e.movements == []
  {
  }

  lemma ScanPlan(db: Database, pr: Process, i: nat)
    requires WorkingOk(db, pr) && pr.command.Reconcile? && i < |pr.actions|
    ensures |pr.rows| == |pr.actions| && pr.actions[i] == Action(Scan, pr.rows[i], 0, 0)
  {
    hide EffectCurrent;
  }

  /** A scanned row exists and its balance stays as it is, with no movement. */
  lemma ScanEffect(db: Database, pr: Process, i: nat)
    requires WorkingOk(db, pr) && pr.command.Reconcile? && i < |pr.effects|
    ensures |pr.rows| == |pr.actions| && pr.actions[i].product == pr.rows[i] && pr.rows[i] in db.balances
    ensures pr.effects[i].balance == db.balances[pr.rows[i]] && pr.effects[i].movements == []
  {
    hide EffectOf, Plan, Admit, DecisionFor;
    assert EffectCurrent(db, pr, i);
    ScanPlan(db, pr, i);
    ScanKeepsBalance(Row(db, pr.rows[i]), db.openAlerts[pr.rows[i]], pr.points[i], pr.rows[i], pr.effects[i]);
  }

  lemma InstallAlertOnly(db: Database, product: nat, e: Effect)
    requires product in db.balances && e.balance == db.balances[product] && e.movements == []
    ensures Install(db, product, e) == db.(openAlerts := db.openAlerts[product := e.openAlerts])
  {
    assert db.balances[product := db.balances[product]] == db.balances;
    assert db.movements + [] == db.movements;
  }

  lemma {:induction false} ScansKeepBalances(db: Database, pr: Process, n: nat)
    requires WorkingOk(db, pr) && pr.command.Reconcile? && n <= |pr.effects|
    ensures var after := Publish(db, pr.actions, pr.effects[..n]);
            after == db.(openAlerts := after.openAlerts)
  {
    hide EffectCurrent, Install, Plan, Admit;
    if n == 0 {
      assert pr.effects[..0] == [];
    } else {
      ScansKeepBalances(db, pr, n - 1);
      ScanEffect(db, pr, n - 1);
      PublishNext(db, pr.actions, pr.effects, n - 1);
      InstallAlertOnly(Publish(db, pr.actions, pr.effects[..n - 1]), pr.rows[n - 1], pr.effects[n - 1]);
    }
  }

  /**
   A reconciliation that runs beside other transactions and edits of reorder points changes alerts only, and
   when it commits every row it scanned has an open alert exactly when its stock is at or below the point read.
   */
  lemma InterleavedReconcile(reorderPoints: map<nat, int>, steps: seq<Step>, p: nat)
    requires var s := Run(Initially(reorderPoints), steps);
             Enabled(s, Commit(p)) && s.processes[p].command.Reconcile?
    ensures var s := Run(Initially(reorderPoints), steps);
            var pr, after := s.processes[p], Do(s, Commit(p)).db;
            && after == s.db.(openAlerts := after.openAlerts)
            && |pr.points| == |pr.rows|
            && forall i | 0 <= i < |pr.rows| ::
                 pr.rows[i] in after.balances && AlertRight(after, pr.rows[i], pr.points[i])
  {
    InitiallyOk(reorderPoints);
    RunKeepsOk(Initially(reorderPoints), steps);
    var s := Run(Initially(reorderPoints), steps);
    var pr := s.processes[p];
    assert ProcessOk(s.db, pr);
    ScansKeepBalances(s.db, pr, |pr.effects|);
    assert pr.effects[..|pr.effects|] == pr.effects;
    forall i | 0 <= i < |pr.rows|
      ensures pr.rows[i] in s.db.balances && AlertRight(Do(s, Commit(p)).db, pr.rows[i], pr.points[i])
    {
      ScanEffect(s.db, pr, i);
      CommitSetsAlerts(reorderPoints, steps, p, i);
    }
  }
}

/**
 Any number of stock and order transactions running at once. A transaction takes its locks one at a
 time, reads a row only under that row's lock, buffers what it writes, and publishes everything at
 commit or nothing at all. A step that is not enabled changes nothing, so every list of steps is a
 run, and what is proved for all lists of steps holds under every interleaving.
 */
module StockConcurrency {
  import opened Wrappers
  import opened Projection
  import opened StockLedger
  import opened StockInvariants
  import Enumeration

  // ----- State -----

  /** The advisory lock of an idempotency key, and the row locks of orders and balances. */
  datatype Lock = KeyLock(key: nat) | OrderLock(order: nat) | RowLock(product: nat)

  datatype Phase = Starting | Opening | Working | Finished

  /**
   `points` are the reorder points read so far and `actions[..locked]` the balance rows locked so far.
   `effects` are the buffered results of the rows already worked on, and `decisions` what was decided about
   the alert of each.
   */
  datatype Process = Process(
    command: Command,
    key: Option<nat>,
    phase: Phase,
    ordered: bool,
    rows: seq<nat>,
    actions: seq<Action>,
    locked: nat,
    points: seq<int>,
    effects: seq<Effect>,
    decisions: seq<LowStockTransition>)

  datatype System = System(db: Database, processes: seq<Process>)

  datatype Step =
    | Spawn(command: Command, key: Option<nat>)
    | TakeKey(process: nat)
    | Replay(process: nat)
    | TakeOrder(process: nat)
    | Open(process: nat)
    | ReadPoint(process: nat)
    | TakeRow(process: nat)
    | Work(process: nat)
    | Commit(process: nat)
    | Abort(process: nat)
    | SetReorderPoint(product: nat, value: int)

  function OrderOf(c: Command): Option<nat> {
    match c
    case EditDraft(id, _) => Some(id)
    case Transition(id, _) => Some(id)
    case _ => None
  }

  // ----- Locks -----

  ghost predicate Holds(pr: Process, l: Lock) {
    match l
    case KeyLock(key) => pr.phase in {Opening, Working} && pr.key == Some(key)
    case OrderLock(id) => pr.phase in {Opening, Working} && pr.ordered && OrderOf(pr.command) == Some(id)
    case RowLock(product) =>
      pr.phase == Working && exists i | 0 <= i < pr.locked && i < |pr.actions| :: pr.actions[i].product == product
  }

  /** The lock a process takes next, if it still has one to take. */
  function NextLock(pr: Process): Option<Lock> {
    match pr.phase
    case Starting => if pr.key.Some? then Some(KeyLock(pr.key.value)) else None
    case Opening =>
      if OrderOf(pr.command).Some? && !pr.ordered then Some(OrderLock(OrderOf(pr.command).value)) else None
    case Working => if pr.locked < |pr.actions| then Some(RowLock(pr.actions[pr.locked].product)) else None
    case Finished => None
  }

  ghost predicate Free(s: System, p: nat, l: Lock) {
    forall q | 0 <= q < |s.processes| && q != p :: !Holds(s.processes[q], l)
  }

  ghost predicate NextLockFree(s: System, p: nat)
    requires p < |s.processes|
  {
    var l := NextLock(s.processes[p]);
    l.None? || Free(s, p, l.value)
  }

  // ----- Steps -----

  /**
   Receipts, adjustments and reconciliations read all their reorder points before they wait for a row. A
   transition reads each point in the statement that waits for the row, and so just before it waits.
   */
  ghost function EarlyPoints(db: Database, c: Command, actions: seq<Action>): (points: seq<int>)
    ensures |points| <= |actions|
  {
    if c.Receipt? || c.Adjustment? || c.Reconcile?
    then seq(|actions|, i requires 0 <= i < |actions| => ReorderPoint(db, actions[i].product))
    else []
  }

  ghost predicate Enabled(s: System, step: Step) {
    match step
    case Spawn(command, _) => ValidCommand(command)
    case SetReorderPoint(_, _) => true
    case Abort(p) => p < |s.processes| && !s.processes[p].phase.Finished?
    case TakeKey(p) => p < |s.processes| && s.processes[p].phase == Starting && NextLockFree(s, p)
    case Replay(p) =>
      p < |s.processes| && var pr := s.processes[p]; pr.phase == Opening && pr.key.Some? && !pr.ordered
    case TakeOrder(p) =>
      && p < |s.processes| && var pr := s.processes[p];
      && pr.phase == Opening && OrderOf(pr.command).Some? && !pr.ordered && NextLockFree(s, p)
    case Open(p) =>
      && p < |s.processes| && var pr := s.processes[p];
      && pr.phase == Opening && (OrderOf(pr.command).Some? ==> pr.ordered)
    case ReadPoint(p) =>
      && p < |s.processes| && var pr := s.processes[p];
      && pr.phase == Working && |pr.points| == |pr.effects| < |pr.actions|
    case TakeRow(p) =>
      && p < |s.processes| && var pr := s.processes[p];
      && pr.phase == Working && pr.locked < |pr.points| <= |pr.actions| && NextLockFree(s, p)
    case Work(p) =>
      && p < |s.processes| && var pr := s.processes[p];
      && pr.phase == Working && |pr.effects| < pr.locked <= |pr.points| <= |pr.actions|
    case Commit(p) =>
      && p < |s.processes| && var pr := s.processes[p];
      && pr.phase == Working && |pr.effects| == |pr.actions|
  }

  ghost function OpenProcess(db: Database, pr: Process): Process {
    if Admit(db, pr.command).Some? then pr.(phase := Finished)
    else
      var rows := if pr.command.Reconcile? then Enumeration.Ascending(db.balances.Keys) else [];
      var actions := Plan(db, pr.command, rows);
      pr.(phase := Working, rows := rows, actions := actions, locked := 0,
          points := EarlyPoints(db, pr.command, actions), effects := [], decisions := [])
  }

  ghost function ReadingProcess(db: Database, pr: Process): Process
    requires |pr.points| < |pr.actions|
  {
    pr.(points := pr.points + [ReorderPoint(db, pr.actions[|pr.points|].product)])
  }

  ghost predicate CanWork(pr: Process) {
    |pr.effects| < |pr.points| <= |pr.actions|
  }

  ghost function WorkResult(db: Database, pr: Process): Result<Effect, Refusal>
    requires CanWork(pr)
  {
    var a := pr.actions[|pr.effects|];
    EffectOf(Row(db, a.product), db.openAlerts[a.product], pr.points[|pr.effects|], a)
  }

  /** What is decided about the alert of a product whose new balance and open alerts are given. */
  function DecisionFor(balance: InventoryState, open: nat, point: int): LowStockTransition {
    ReconcileTransition(balance.Available(), point, open > 0)
  }

  ghost function WorkProcess(db: Database, pr: Process): Process
    requires CanWork(pr)
  {
    match WorkResult(db, pr)
    case Failure(_) => pr.(phase := Finished)
    case Success(e) =>
      var i := |pr.effects|;
      pr.(effects := pr.effects + [e],
          decisions := pr.decisions + [DecisionFor(e.balance, db.openAlerts[pr.actions[i].product], pr.points[i])])
  }

  /** The buffered effects written over the committed tables. */
  ghost function Publish(db: Database, actions: seq<Action>, effects: seq<Effect>): Database
    requires |effects| <= |actions|
  {
    if effects == [] then db
    else
      var last := |effects| - 1;
      Install(Publish(db, actions, effects[..last]), actions[last].product, effects[last])
  }

  ghost function CommitDatabase(db: Database, pr: Process): Database
    requires |pr.effects| <= |pr.actions|
  {
    var mid := Publish(db, pr.actions, pr.effects);
    mid.(orders := OrdersAfter(mid.orders, pr.command))
  }

  ghost function Set(s: System, p: nat, pr: Process): System
    requires p < |s.processes|
  {
    s.(processes := s.processes[p := pr])
  }

  ghost function Do(s: System, step: Step): System {
    if !Enabled(s, step) then s
    else
      match step
      case Spawn(command, key) =>
        s.(processes := s.processes + [Process(command, key, Starting, false, [], [], 0, [], [], [])])
      case SetReorderPoint(product, value) => s.(db := s.db.(reorderPoints := s.db.reorderPoints[product := value]))
      case Abort(p) => Set(s, p, s.processes[p].(phase := Finished))
      case TakeKey(p) => Set(s, p, s.processes[p].(phase := Opening))
      case Replay(p) => Set(s, p, s.processes[p].(phase := Finished))
      case TakeOrder(p) => Set(s, p, s.processes[p].(ordered := true))
      case Open(p) => Set(s, p, OpenProcess(s.db, s.processes[p]))
      case ReadPoint(p) => Set(s, p, ReadingProcess(s.db, s.processes[p]))
      case TakeRow(p) => Set(s, p, s.processes[p].(locked := s.processes[p].locked + 1))
      case Work(p) => Set(s, p, WorkProcess(s.db, s.processes[p]))
      case Commit(p) =>
        Set(s.(db := CommitDatabase(s.db, s.processes[p])), p, s.processes[p].(phase := Finished))
  }

  ghost function Run(s: System, steps: seq<Step>): System {
    if steps == [] then s else Do(Run(s, steps[..|steps| - 1]), steps[|steps| - 1])
  }

  /** An empty warehouse over some product table, and no transaction yet. */
  ghost function Initially(reorderPoints: map<nat, int>): System {
    System(Database(map[], [], [], multiset{}, reorderPoints), [])
  }

  // ----- The invariant -----

  ghost predicate DistinctRows(actions: seq<Action>) {
    forall i, j | 0 <= i < j < |actions| :: actions[i].product < actions[j].product
  }

  /** Action `i` of `pr`, done on the committed tables as they are now, has exactly the buffered effect and decision. */
  ghost predicate EffectCurrent(db: Database, pr: Process, i: nat)
    requires i < |pr.effects| == |pr.decisions| && |pr.effects| <= |pr.points| <= |pr.actions|
  {
    var a := pr.actions[i];
    && EffectOf(Row(db, a.product), db.openAlerts[a.product], pr.points[i], a) == Success(pr.effects[i])
    && pr.decisions[i] == DecisionFor(pr.effects[i].balance, db.openAlerts[a.product], pr.points[i])
  }

  ghost predicate WorkingOk(db: Database, pr: Process) {
    && |pr.effects| == |pr.decisions| <= pr.locked <= |pr.points| <= |pr.actions|
    && DistinctRows(pr.actions)
    && (OrderOf(pr.command).Some? ==> pr.ordered)
    && Admit(db, pr.command).None? && pr.actions == Plan(db, pr.command, pr.rows)
    && forall i | 0 <= i < |pr.effects| :: EffectCurrent(db, pr, i)
  }

  ghost predicate ProcessOk(db: Database, pr: Process) {
    && ValidCommand(pr.command)
    && (pr.phase == Starting ==> !pr.ordered)
    && (pr.phase == Working ==> WorkingOk(db, pr))
  }

  ghost predicate LocksExclusive(s: System) {
    forall p, q, l | 0 <= p < |s.processes| && 0 <= q < |s.processes| && p != q ::
      !(Holds(s.processes[p], l) && Holds(s.processes[q], l))
  }

  ghost predicate SystemOk(s: System) {
    && Consistent(s.db)
    && (forall p | 0 <= p < |s.processes| :: ProcessOk(s.db, s.processes[p]))
    && LocksExclusive(s)
  }

  // ----- Commits are serial -----

  lemma {:induction false} PublishFrame(db: Database, actions: seq<Action>, effects: seq<Effect>)
    requires |effects| <= |actions|
    ensures var after := Publish(db, actions, effects);
            && after.orders == db.orders && after.reorderPoints == db.reorderPoints
            && forall p: nat | (forall i | 0 <= i < |effects| :: actions[i].product != p) ::
                 Row(after, p) == Row(db, p) && after.openAlerts[p] == db.openAlerts[p]
  {
    if effects != [] {
      PublishFrame(db, actions, effects[..|effects| - 1]);
    }
  }

  lemma PublishNext(db: Database, actions: seq<Action>, effects: seq<Effect>, n: nat)
    requires n < |effects| <= |actions|
    ensures Publish(db, actions, effects[..n + 1]) == Install(Publish(db, actions, effects[..n]), actions[n].product, effects[n])
  {
    assert effects[..n + 1][..n] == effects[..n];
  }

  lemma ApplyBuffered(db: Database, mid: Database, pr: Process, i: nat)
    requires i < |pr.effects| == |pr.decisions| && |pr.effects| <= |pr.points| <= |pr.actions| && EffectCurrent(db, pr, i)
    requires Row(mid, pr.actions[i].product) == Row(db, pr.actions[i].product)
    requires mid.openAlerts[pr.actions[i].product] == db.openAlerts[pr.actions[i].product]
    ensures ApplyAction(mid, pr.actions[i], PointAt(pr.points, i))
            == Success(Install(mid, pr.actions[i].product, pr.effects[i]))
  {
  }

  lemma {:induction false} PublishIsApply(db: Database, pr: Process, n: nat)
    requires WorkingOk(db, pr) && n <= |pr.effects|
    ensures ApplyActions(db, pr.actions[..n], pr.points) == Success(Publish(db, pr.actions, pr.effects[..n]))
  {
    hide Install, ApplyAction, Plan, Admit, Row, PointAt;
    if n == 0 {
      assert pr.actions[..n] == [] && pr.effects[..n] == [];
    } else {
      var last := n - 1;
      hide EffectCurrent;
      var mid := Publish(db, pr.actions, pr.effects[..last]);
      PublishIsApply(db, pr, last);
      PublishFrame(db, pr.actions, pr.effects[..last]);
      ApplyBuffered(db, mid, pr, last);
      assert pr.actions[..n][..last] == pr.actions[..last] && pr.effects[..n][..last] == pr.effects[..last];
    }
  }

  /** What a commit publishes is what the command would have done alone on the tables of that moment. */
  lemma CommitIsSerial(db: Database, pr: Process)
    requires WorkingOk(db, pr) && |pr.effects| == |pr.actions|
    ensures Execute(db, pr.command, pr.rows, pr.points) == Success(CommitDatabase(db, pr))
  {
    PublishIsApply(db, pr, |pr.effects|);
    assert pr.actions[..|pr.actions|] == pr.actions && pr.effects[..|pr.effects|] == pr.effects;
  }

  // ----- Other transactions cannot disturb one that works -----

  lemma WorkingFrame(db: Database, after: Database, pr: Process)
    requires WorkingOk(db, pr)
    requires forall i | 0 <= i < pr.locked ::
               Row(after, pr.actions[i].product) == Row(db, pr.actions[i].product)
               && after.openAlerts[pr.actions[i].product] == db.openAlerts[pr.actions[i].product]
    requires db.reorderPoints.Keys <= after.reorderPoints.Keys
    requires OrderOf(pr.command).Some? ==>
               var id := OrderOf(pr.command).value; id < |db.orders| && id < |after.orders| && after.orders[id] == db.orders[id]
    ensures WorkingOk(after, pr)
  {
    forall i | 0 <= i < |pr.effects| ensures EffectCurrent(after, pr, i) {
      assert EffectCurrent(db, pr, i);
    }
  }

  lemma CommitDisturbsNobody(s: System, p: nat, q: nat)
    requires SystemOk(s) && Enabled(s, Commit(p)) && q < |s.processes| && q != p && s.processes[q].phase == Working
    ensures WorkingOk(CommitDatabase(s.db, s.processes[p]), s.processes[q])
  {
    hide Consistent, EffectCurrent, Plan;
    var mine, other := s.processes[q], s.processes[p];
    var after := CommitDatabase(s.db, other);
    PublishFrame(s.db, other.actions, other.effects);
    forall i | 0 <= i < mine.locked
      ensures Row(after, mine.actions[i].product) == Row(s.db, mine.actions[i].product)
      ensures after.openAlerts[mine.actions[i].product] == s.db.openAlerts[mine.actions[i].product]
    {
      var l := RowLock(mine.actions[i].product);
      assert Holds(mine, l);
      assert !Holds(other, l);
    }
    if OrderOf(mine.command).Some? {
      var l := OrderLock(OrderOf(mine.command).value);
      assert Holds(mine, l);
      assert !Holds(other, l);
    }
    WorkingFrame(s.db, after, mine);
  }

  // ----- Every step keeps the invariant -----

  lemma PlanRowsDistinct(db: Database, c: Command, rows: seq<nat>)
    requires OrdersValid(db) && ValidCommand(c) && Admit(db, c).None?
    requires forall i, j | 0 <= i < j < |rows| :: rows[i] < rows[j]
    ensures DistinctRows(Plan(db, c, rows))
  {
    match c
    case Receipt(_, lines) => SortKeepsLines(lines);
    case Transition(id, _) => SortKeepsLines(db.orders[id].lines);
    case _ =>
  }

  lemma OpenKeepsOk(db: Database, pr: Process)
    requires Consistent(db) && ValidCommand(pr.command) && (OrderOf(pr.command).Some? ==> pr.ordered)
    requires pr.phase == Opening
    ensures ProcessOk(db, OpenProcess(db, pr))
  {
    if Admit(db, pr.command).None? {
      Enumeration.AscendingIsSorted(db.balances.Keys);
      PlanRowsDistinct(db, pr.command, OpenProcess(db, pr).rows);
    }
  }

  lemma ReadingKeepsOk(db: Database, pr: Process)
    requires ProcessOk(db, pr) && pr.phase == Working && |pr.points| < |pr.actions|
    ensures ProcessOk(db, ReadingProcess(db, pr))
  {
    var after := ReadingProcess(db, pr);
    forall i | 0 <= i < |pr.effects| ensures EffectCurrent(db, after, i) {
      assert EffectCurrent(db, pr, i);
    }
  }

  /** Buffering one more effect leaves those before it as they were. */
  lemma EffectStaysCurrent(db: Database, pr: Process, e: Effect, d: LowStockTransition, i: nat)
    requires i < |pr.effects| == |pr.decisions| && |pr.effects| < |pr.points| <= |pr.actions| && EffectCurrent(db, pr, i)
    ensures EffectCurrent(db, pr.(effects := pr.effects + [e], decisions := pr.decisions + [d]), i)
  {
  }

  lemma NewEffectCurrent(db: Database, pr: Process)
    requires CanWork(pr) && |pr.effects| == |pr.decisions| && WorkResult(db, pr).Success?
    ensures EffectCurrent(db, WorkProcess(db, pr), |pr.effects|)
  {
  }

  lemma WorkKeepsOk(db: Database, pr: Process)
    requires ProcessOk(db, pr) && pr.phase == Working && |pr.effects| < pr.locked
    ensures ProcessOk(db, WorkProcess(db, pr))
  {
    hide EffectCurrent, WorkResult, DecisionFor, Plan, Admit;
    if WorkResult(db, pr).Success? {
      var after := WorkProcess(db, pr);
      forall i | 0 <= i < |after.effects| ensures EffectCurrent(db, after, i) {
        if i < |pr.effects| {
          EffectStaysCurrent(db, pr, after.effects[|pr.effects|], after.decisions[|pr.effects|], i);
        } else {
          NewEffectCurrent(db, pr);
        }
      }
    }
  }

  /** Replacing one process keeps the locks exclusive when it gains no lock that another holds. */
  lemma ReplaceKeepsExclusive(s: System, p: nat, pr: Process)
    requires LocksExclusive(s) && p < |s.processes|
    requires forall l | Holds(pr, l) && !Holds(s.processes[p], l) :: Free(s, p, l)
    ensures LocksExclusive(Set(s, p, pr))
  {
    var after := Set(s, p, pr);
    forall a, b, l | 0 <= a < |after.processes| && 0 <= b < |after.processes| && a != b
      ensures !(Holds(after.processes[a], l) && Holds(after.processes[b], l))
    {
    }
  }

  lemma SpawnKeepsOk(s: System, command: Command, key: Option<nat>)
    requires SystemOk(s) && ValidCommand(command)
    ensures SystemOk(Do(s, Spawn(command, key)))
  {
  }

  lemma SetPointKeepsOk(s: System, product: nat, value: int)
    requires SystemOk(s)
    ensures SystemOk(Do(s, SetReorderPoint(product, value)))
  {
    var after := Do(s, SetReorderPoint(product, value));
    forall p | 0 <= p < |after.processes| ensures ProcessOk(after.db, after.processes[p]) {
      if after.processes[p].phase == Working {
        WorkingFrame(s.db, after.db, s.processes[p]);
      }
    }
    assert LedgerAddsUp(after.db) by {
      forall x: nat ensures OnHand(after.db, x) == MovementTotal(after.db.movements, x) {
        assert OnHand(after.db, x) == OnHand(s.db, x);
      }
    }
    assert ReservationsMatchOrders(after.db) by {
      forall x: nat ensures Reserved(after.db, x) == Promised(after.db.orders, x) {
        assert Reserved(after.db, x) == Reserved(s.db, x);
      }
    }
  }

  lemma CommitKeepsOk(s: System, p: nat)
    requires SystemOk(s) && Enabled(s, Commit(p))
    ensures SystemOk(Do(s, Commit(p)))
  {
    var pr := s.processes[p];
    var after := Do(s, Commit(p));
    assert ProcessOk(s.db, pr);
    CommitIsSerial(s.db, pr);
    ExecuteKeepsConsistent(s.db, pr.command, pr.rows, pr.points);
    forall q | 0 <= q < |after.processes| ensures ProcessOk(after.db, after.processes[q]) {
      assert ProcessOk(s.db, s.processes[q]);
      if q != p && s.processes[q].phase == Working {
        CommitDisturbsNobody(s, p, q);
      }
    }
    ReplaceKeepsExclusive(s, p, pr.(phase := Finished));
  }

  lemma LocalStepKeepsOk(s: System, step: Step, p: nat)
    requires SystemOk(s) && Enabled(s, step)
    requires step in {Abort(p), TakeKey(p), Replay(p), TakeOrder(p), Open(p), ReadPoint(p), TakeRow(p), Work(p)}
    ensures SystemOk(Do(s, step))
  {
    var pr := s.processes[p];
    var after := Do(s, step);
    assert ProcessOk(s.db, pr);
    match step {
      case Open(_) => OpenKeepsOk(s.db, pr);
      case Work(_) => WorkKeepsOk(s.db, pr);
      case TakeRow(_) =>
        forall i | 0 <= i < |pr.effects| ensures EffectCurrent(s.db, after.processes[p], i) {
          assert EffectCurrent(s.db, pr, i);
        }
      case ReadPoint(_) => ReadingKeepsOk(s.db, pr);
      case _ =>
    }
    assert ProcessOk(s.db, after.processes[p]);
    LocalStepGainsFreeLocks(s, step, p);
    ReplaceKeepsExclusive(s, p, after.processes[p]);
    assert after == Set(s, p, after.processes[p]);
  }

  lemma NextRowLockGained(pr: Process, l: Lock)
    requires pr.phase == Working && pr.locked < |pr.actions|
    requires Holds(pr.(locked := pr.locked + 1), l) && !Holds(pr, l)
    ensures NextLock(pr) == Some(l)
  {
    var i :| 0 <= i < pr.locked + 1 && i < |pr.actions| && pr.actions[i].product == l.product;
  }

  /** The only lock a step can gain is the one it waited for, and it gains it only when it is free. */
  lemma LocalStepGainsFreeLocks(s: System, step: Step, p: nat)
    requires SystemOk(s) && Enabled(s, step)
    requires step in {Abort(p), TakeKey(p), Replay(p), TakeOrder(p), Open(p), ReadPoint(p), TakeRow(p), Work(p)}
    ensures forall l | Holds(Do(s, step).processes[p], l) && !Holds(s.processes[p], l) ::
              NextLock(s.processes[p]) == Some(l) && Free(s, p, l)
  {
    assert ProcessOk(s.db, s.processes[p]);
    hide SystemOk, ProcessOk, Holds, OpenProcess, WorkProcess, ReadingProcess;
    forall l | Holds(Do(s, step).processes[p], l) && !Holds(s.processes[p], l)
      ensures NextLock(s.processes[p]) == Some(l) && (step.TakeKey? || step.TakeOrder? || step.TakeRow?)
    {
      GainedIsNext(s, step, p, l);
    }
  }

  lemma GainedIsNext(s: System, step: Step, p: nat, l: Lock)
    requires Enabled(s, step) && p < |s.processes| && ProcessOk(s.db, s.processes[p])
    requires step in {Abort(p), TakeKey(p), Replay(p), TakeOrder(p), Open(p), ReadPoint(p), TakeRow(p), Work(p)}
    requires Holds(Do(s, step).processes[p], l) && !Holds(s.processes[p], l)
    ensures NextLock(s.processes[p]) == Some(l) && (step.TakeKey? || step.TakeOrder? || step.TakeRow?)
  {
    hide EffectCurrent, NextLockFree;
    var pr := s.processes[p];
    match step
    case TakeRow(_) => NextRowLockGained(pr, l);
    case Open(_) => OpeningGainsNothing(s.db, pr, l);
    case Work(_) => WorkGainsNothing(s.db, pr, l);
    case _ =>
  }

  lemma OpeningGainsNothing(db: Database, pr: Process, l: Lock)
    requires pr.phase == Opening && Holds(OpenProcess(db, pr), l)
    ensures Holds(pr, l)
  {
  }

  lemma WorkGainsNothing(db: Database, pr: Process, l: Lock)
    requires pr.phase == Working && CanWork(pr) && Holds(WorkProcess(db, pr), l)
    ensures Holds(pr, l)
  {
    hide WorkResult;
  }

  lemma StepKeepsOk(s: System, step: Step)
    requires SystemOk(s)
    ensures SystemOk(Do(s, step))
  {
    if Enabled(s, step) {
      match step
      case Spawn(command, key) => SpawnKeepsOk(s, command, key);
      case SetReorderPoint(product, value) => SetPointKeepsOk(s, product, value);
      case Commit(p) => CommitKeepsOk(s, p);
      case Abort(p) => LocalStepKeepsOk(s, step, p);
      case TakeKey(p) => LocalStepKeepsOk(s, step, p);
      case Replay(p) => LocalStepKeepsOk(s, step, p);
      case TakeOrder(p) => LocalStepKeepsOk(s, step, p);
      case Open(p) => LocalStepKeepsOk(s, step, p);
      case ReadPoint(p) => LocalStepKeepsOk(s, step, p);
      case TakeRow(p) => LocalStepKeepsOk(s, step, p);
      case Work(p) => LocalStepKeepsOk(s, step, p);
    }
  }

  // ----- The theorems -----

  lemma {:induction false} RunKeepsOk(s: System, steps: seq<Step>)
    requires SystemOk(s)
    ensures SystemOk(Run(s, steps))
  {
    if steps != [] {
      RunKeepsOk(s, steps[..|steps| - 1]);
      StepKeepsOk(Run(s, steps[..|steps| - 1]), steps[|steps| - 1]);
    }
  }

  lemma InitiallyOk(reorderPoints: map<nat, int>)
    ensures SystemOk(Initially(reorderPoints))
  {
  }

  /**
   In every reachable state the committed balances stay in range, the reserved quantity of each product
   is what its CONFIRMED orders ask for, the ledger adds up to the stock on hand, and sales match
   FULFILLED orders.
   */
  lemma AlwaysConsistent(reorderPoints: map<nat, int>, steps: seq<Step>)
    ensures Consistent(Run(Initially(reorderPoints), steps).db)
  {
    InitiallyOk(reorderPoints);
    RunKeepsOk(Initially(reorderPoints), steps);
  }

  /** Fulfilling or cancelling a CONFIRMED order never fails a stock guard, whatever runs beside it. */
  lemma ShipAndReleaseNeverRefused(reorderPoints: map<nat, int>, steps: seq<Step>, p: nat)
    requires var s := Run(Initially(reorderPoints), steps);
             && Enabled(s, Work(p))
             && s.processes[p].actions[|s.processes[p].effects|].kind in {Ship, Release}
    ensures var s := Run(Initially(reorderPoints), steps);
            WorkResult(s.db, s.processes[p]).Success?
  {
    InitiallyOk(reorderPoints);
    RunKeepsOk(Initially(reorderPoints), steps);
    var s := Run(Initially(reorderPoints), steps);
    var pr := s.processes[p];
    var a := pr.actions[|pr.effects|];
    assert ProcessOk(s.db, pr);
    ShipAndReleaseAreTransitions(s.db, pr.command, pr.rows, a);
    ConfirmedLinesAreCovered(s.db, pr.command.order, pr.command.to, a, pr.points[|pr.effects|]);
  }

  lemma ShipAndReleaseAreTransitions(db: Database, c: Command, rows: seq<nat>, a: Action)
    requires Admit(db, c).None? && a in Plan(db, c, rows) && a.kind in {Ship, Release}
    ensures c.Transition? && db.orders[c.order].status == CONFIRMED
  {
  }

  /** What committed, in commit order, with the rows and reorder points each transaction read. */
  datatype Event = Executed(command: Command, rows: seq<nat>, points: seq<int>) | PointSet(product: nat, value: int)

  ghost function History(s: System, steps: seq<Step>): seq<Event> {
    if steps == [] then []
    else
      var last := |steps| - 1;
      var before := Run(s, steps[..last]);
      History(s, steps[..last])
      + (if !Enabled(before, steps[last]) then []
         else
           match steps[last]
           case Commit(p) => var pr := before.processes[p]; [Executed(pr.command, pr.rows, pr.points)]
           case SetReorderPoint(product, value) => [PointSet(product, value)]
           case _ => [])
  }

  /** The events one after another, each alone. */
  ghost function Serially(db: Database, events: seq<Event>): Result<Database, Refusal> {
    if events == [] then Success(db)
    else
      var last := |events| - 1;
      match Serially(db, events[..last])
      case Failure(refusal) => Failure(refusal)
      case Success(mid) =>
        match events[last]
        case PointSet(product, value) => Success(mid.(reorderPoints := mid.reorderPoints[product := value]))
        case Executed(command, rows, points) =>
          Execute(mid, command, rows, points)
  }

  /** Every interleaving ends with the tables that its committed commands produce one at a time, in commit order. */
  lemma {:induction false} RunIsSerial(s: System, steps: seq<Step>)
    requires SystemOk(s)
    ensures Serially(s.db, History(s, steps)) == Success(Run(s, steps).db)
  {
    if steps != [] {
      var last := |steps| - 1;
      var before := Run(s, steps[..last]);
      var done := History(s, steps[..last]);
      RunIsSerial(s, steps[..last]);
      RunKeepsOk(s, steps[..last]);
      if Enabled(before, steps[last]) && (steps[last].Commit? || steps[last].SetReorderPoint?) {
        var all := History(s, steps);
        assert all[..|done|] == done && |all| == |done| + 1;
        if steps[last].Commit? {
          assert ProcessOk(before.db, before.processes[steps[last].process]);
          CommitIsSerial(before.db, before.processes[steps[last].process]);
        }
      } else {
        assert History(s, steps) == done;
      }
    }
  }

  /** When a transaction commits, each product it worked on has an open alert exactly if its stock is low. */
  lemma CommitSetsAlerts(reorderPoints: map<nat, int>, steps: seq<Step>, p: nat, i: nat)
    requires var s := Run(Initially(reorderPoints), steps);
             Enabled(s, Commit(p)) && i < |s.processes[p].actions|
    ensures var s := Run(Initially(reorderPoints), steps);
            var pr := s.processes[p];
            && i < |pr.points|
            && AlertRight(Do(s, Commit(p)).db, pr.actions[i].product, pr.points[i])
  {
    InitiallyOk(reorderPoints);
    RunKeepsOk(Initially(reorderPoints), steps);
    var s := Run(Initially(reorderPoints), steps);
    var pr := s.processes[p];
    assert ProcessOk(s.db, pr);
    CommitIsSerial(s.db, pr);
    PlanIsPositive(s.db, pr.command, pr.rows);
    ActionsSetAlerts(s.db, pr.actions, pr.points);
    assert AlertRight(ApplyActions(s.db, pr.actions, pr.points).value, pr.actions[i].product, pr.points[i]);
  }

  // ----- What was read, and what was refused -----

  /** `point` was the reorder point of `product` at some moment of the run. */
  ghost predicate WasPoint(s: System, steps: seq<Step>, product: nat, point: int) {
    exists k: nat :: k <= |steps| && point == ReorderPoint(Run(s, steps[..k]).db, product)
  }

  /** `rows` were all the balance rows at some moment of the run, in product order. */
  ghost predicate WereRows(s: System, steps: seq<Step>, rows: seq<nat>) {
    exists k: nat :: k <= |steps| && rows == Enumeration.Ascending(Run(s, steps[..k]).db.balances.Keys)
  }

  ghost predicate ReadsReal(s: System, steps: seq<Step>, pr: Process) {
    && (forall i | 0 <= i < |pr.points| && i < |pr.actions| :: WasPoint(s, steps, pr.actions[i].product, pr.points[i]))
    && (pr.phase == Working && pr.command.Reconcile? ==> WereRows(s, steps, pr.rows))
  }

  lemma LaterWasPoint(s: System, steps: seq<Step>, step: Step, product: nat, point: int)
    requires WasPoint(s, steps, product, point)
    ensures WasPoint(s, steps + [step], product, point)
  {
    var k: nat :| k <= |steps| && point == ReorderPoint(Run(s, steps[..k]).db, product);
    assert (steps + [step])[..k] == steps[..k];
  }

  lemma LaterWereRows(s: System, steps: seq<Step>, step: Step, rows: seq<nat>)
    requires WereRows(s, steps, rows)
    ensures WereRows(s, steps + [step], rows)
  {
    var k: nat :| k <= |steps| && rows == Enumeration.Ascending(Run(s, steps[..k]).db.balances.Keys);
    assert (steps + [step])[..k] == steps[..k];
  }

  lemma LaterReadsReal(s: System, steps: seq<Step>, step: Step, pr: Process)
    requires ReadsReal(s, steps, pr)
    ensures ReadsReal(s, steps + [step], pr)
  {
    hide WasPoint, WereRows;
    forall i | 0 <= i < |pr.points| && i < |pr.actions|
      ensures WasPoint(s, steps + [step], pr.actions[i].product, pr.points[i])
    {
      LaterWasPoint(s, steps, step, pr.actions[i].product, pr.points[i]);
    }
    if pr.phase == Working && pr.command.Reconcile? {
      LaterWereRows(s, steps, step, pr.rows);
    }
  }

  lemma ReadNow(s: System, steps: seq<Step>, product: nat)
    ensures WasPoint(s, steps, product, ReorderPoint(Run(s, steps).db, product))
    ensures WereRows(s, steps, Enumeration.Ascending(Run(s, steps).db.balances.Keys))
  {
    assert steps[..|steps|] == steps;
  }

  lemma OpenReadsReal(s: System, steps: seq<Step>, pr: Process)
    requires pr.points == [] && pr.phase == Opening
    ensures ReadsReal(s, steps, OpenProcess(Run(s, steps).db, pr))
  {
    hide WasPoint, WereRows, Run;
    var db := Run(s, steps).db;
    var after := OpenProcess(db, pr);
    forall i | 0 <= i < |after.points| && i < |after.actions|
      ensures WasPoint(s, steps, after.actions[i].product, after.points[i])
    {
      ReadNow(s, steps, after.actions[i].product);
      assert after.points[i] == ReorderPoint(db, after.actions[i].product);
    }
    ReadNow(s, steps, 0);
  }

  lemma ReadPointReadsReal(s: System, steps: seq<Step>, pr: Process)
    requires ReadsReal(s, steps, pr) && |pr.points| < |pr.actions|
    ensures ReadsReal(s, steps, ReadingProcess(Run(s, steps).db, pr))
  {
    hide WasPoint, WereRows, Run;
    ReadNow(s, steps, pr.actions[|pr.points|].product);
  }

  /** Before it opens its work a transaction has read nothing. */
  ghost predicate NothingRead(pr: Process) {
    pr.phase in {Starting, Opening} ==> pr.points == []
  }

  lemma StepReadsReal(s: System, steps: seq<Step>, step: Step, p: nat)
    requires var before := Run(s, steps);
             forall q | 0 <= q < |before.processes| ::
               NothingRead(before.processes[q]) && ReadsReal(s, steps, before.processes[q])
    requires p < |Do(Run(s, steps), step).processes|
    ensures NothingRead(Do(Run(s, steps), step).processes[p])
    ensures ReadsReal(s, steps, Do(Run(s, steps), step).processes[p])
  {
    hide WasPoint, WereRows, Run, OpenProcess, ReadingProcess, NextLockFree, CommitDatabase, WorkResult;
    var before := Run(s, steps);
    if Enabled(before, step) {
      match step {
        case Open(q) =>
          OpenReadsReal(s, steps, before.processes[q]);
          OpenedOrFinished(before.db, before.processes[q]);
        case ReadPoint(q) => ReadPointReadsReal(s, steps, before.processes[q]);
          StillWorking(before.db, before.processes[q]);
        case _ =>
      }
    }
  }

  lemma OpenedOrFinished(db: Database, pr: Process)
    ensures OpenProcess(db, pr).phase == Working || OpenProcess(db, pr).phase.Finished?
  {
  }

  lemma StillWorking(db: Database, pr: Process)
    requires |pr.points| < |pr.actions|
    ensures ReadingProcess(db, pr).phase == pr.phase
  {
  }

  /**
   Every reorder point a transaction decides with was the product's own at some moment of the run, and a
   reconciliation goes through every balance row there was when it began.
   */
  lemma {:induction false} ReadsAreReal(s: System, steps: seq<Step>, p: nat)
    requires s.processes == [] && p < |Run(s, steps).processes|
    ensures NothingRead(Run(s, steps).processes[p]) && ReadsReal(s, steps, Run(s, steps).processes[p])
  {
    hide Do, ReadsReal, NothingRead;
    if steps != [] {
      var front, last := steps[..|steps| - 1], steps[|steps| - 1];
      var before := Run(s, front);
      forall q | 0 <= q < |before.processes|
        ensures NothingRead(before.processes[q]) && ReadsReal(s, front, before.processes[q])
      {
        ReadsAreReal(s, front, q);
      }
      StepReadsReal(s, front, last, p);
      LaterReadsReal(s, front, last, Run(s, steps).processes[p]);
      assert front + [last] == steps;
    }
  }

  /** An action that is refused refuses all that follow it. */
  lemma {:induction false} RefusedPrefix(db: Database, actions: seq<Action>, points: seq<int>, n: nat)
    requires n <= |actions| && ApplyActions(db, actions[..n], points).Failure?
    ensures ApplyActions(db, actions, points) == ApplyActions(db, actions[..n], points)
    decreases |actions| - n
  {
    hide ApplyAction;
    if n == |actions| {
      assert actions[..n] == actions;
    } else {
      assert actions[..n + 1][..n] == actions[..n];
      RefusedPrefix(db, actions, points, n + 1);
    }
  }

  /** A transaction that is refused for stock would be refused alike if it ran alone on the tables of that moment. */
  lemma RefusalIsSerial(reorderPoints: map<nat, int>, steps: seq<Step>, p: nat)
    requires Enabled(Run(Initially(reorderPoints), steps), Work(p))
    ensures var s := Run(Initially(reorderPoints), steps);
            var pr := s.processes[p];
            WorkResult(s.db, pr).Failure? ==>
              Execute(s.db, pr.command, pr.rows, pr.points) == Failure(WorkResult(s.db, pr).error)
  {
    InitiallyOk(reorderPoints);
    RunKeepsOk(Initially(reorderPoints), steps);
    var s := Run(Initially(reorderPoints), steps);
    assert ProcessOk(s.db, s.processes[p]);
    if WorkResult(s.db, s.processes[p]).Failure? {
      WorkRefusalIsSerial(s.db, s.processes[p]);
    }
  }

  lemma WorkRefusalIsSerial(db: Database, pr: Process)
    requires WorkingOk(db, pr) && CanWork(pr) && WorkResult(db, pr).Failure?
    ensures Execute(db, pr.command, pr.rows, pr.points) == Failure(WorkResult(db, pr).error)
  {
    hide EffectCurrent, EffectOf, Install, Plan, Admit, Row;
    var n := |pr.effects|;
    var mid := Publish(db, pr.actions, pr.effects);
    PublishIsApply(db, pr, n);
    assert pr.effects[..n] == pr.effects;
    PublishFrame(db, pr.actions, pr.effects);
    assert Row(mid, pr.actions[n].product) == Row(db, pr.actions[n].product)
           && mid.openAlerts[pr.actions[n].product] == db.openAlerts[pr.actions[n].product];
    assert pr.actions[..n + 1][..n] == pr.actions[..n];
    assert ApplyActions(db, pr.actions[..n + 1], pr.points) == Failure(WorkResult(db, pr).error);
    RefusedPrefix(db, pr.actions, pr.points, n + 1);
  }
}

/**
 The locks that stock and order transactions name are always taken in one order: idempotency key, then
 order row, then balance rows by product. Hence no set of transactions can wait for each other in a
 circle, while any transaction is unfinished some transaction can advance, and so all of them can finish.
 */
module StockDeadlock {
  import opened Wrappers
  import opened StockLedger
  import opened StockConcurrency

  function Class(l: Lock): nat {
    match l
    case KeyLock(_) => 0
    case OrderLock(_) => 1
    case RowLock(_) => 2
  }

  predicate Before(a: Lock, b: Lock) {
    Class(a) < Class(b) || (a.RowLock? && b.RowLock? && a.product < b.product)
  }

  /** Process `p` needs a lock that `q` holds. */
  ghost predicate WaitsFor(s: System, p: nat, q: nat) {
    && p < |s.processes| && q < |s.processes| && p != q
    && NextLock(s.processes[p]).Some?
    && Holds(s.processes[q], NextLock(s.processes[p]).value)
  }

  /** A circular wait: each member waits for the next and the last for the first. */
  ghost predicate Circular(s: System, waiting: seq<nat>) {
    && waiting != []
    && (forall i | 0 <= i < |waiting| - 1 :: WaitsFor(s, waiting[i], waiting[i + 1]))
    && WaitsFor(s, waiting[|waiting| - 1], waiting[0])
  }

  lemma HeldBeforeNext(db: Database, pr: Process, l: Lock)
    requires ProcessOk(db, pr) && Holds(pr, l) && NextLock(pr).Some?
    ensures Before(l, NextLock(pr).value)
  {
  }

  lemma NextLocksAscend(s: System, p: nat, q: nat)
    requires SystemOk(s) && WaitsFor(s, p, q) && NextLock(s.processes[q]).Some?
    ensures Before(NextLock(s.processes[p]).value, NextLock(s.processes[q]).value)
  {
    HeldBeforeNext(s.db, s.processes[q], NextLock(s.processes[p]).value);
  }

  lemma {:induction false} NextLocksAscendAlong(s: System, waiting: seq<nat>)
    requires SystemOk(s) && |waiting| > 1
    requires forall i | 0 <= i < |waiting| ::
               waiting[i] < |s.processes| && NextLock(s.processes[waiting[i]]).Some?
    requires forall i | 0 <= i < |waiting| - 1 :: WaitsFor(s, waiting[i], waiting[i + 1])
    ensures Before(NextLock(s.processes[waiting[0]]).value, NextLock(s.processes[waiting[|waiting| - 1]]).value)
  {
    var last := |waiting| - 1;
    NextLocksAscend(s, waiting[last - 1], waiting[last]);
    if last > 1 {
      NextLocksAscendAlong(s, waiting[..last]);
    }
  }

  /** No reachable state holds a circular wait of any length. */
  lemma NoCircularWait(reorderPoints: map<nat, int>, steps: seq<Step>, waiting: seq<nat>)
    ensures !Circular(Run(Initially(reorderPoints), steps), waiting)
  {
    var s := Run(Initially(reorderPoints), steps);
    InitiallyOk(reorderPoints);
    RunKeepsOk(Initially(reorderPoints), steps);
    if Circular(s, waiting) {
      var last := |waiting| - 1;
      forall i | 0 <= i < |waiting|
        ensures waiting[i] < |s.processes| && NextLock(s.processes[waiting[i]]).Some?
      {
        assert i < last ==> WaitsFor(s, waiting[i], waiting[i + 1]);
      }
      NextLocksAscendAlong(s, waiting);
      NextLocksAscend(s, waiting[last], waiting[0]);
    }
  }

  ghost predicate Unfinished(s: System, p: nat) {
    p < |s.processes| && !s.processes[p].phase.Finished?
  }

  ghost predicate StepOf(step: Step, p: nat) {
    step in {TakeKey(p), TakeOrder(p), Open(p), ReadPoint(p), TakeRow(p), Work(p), Commit(p)}
  }

  /** How far a process is from its end: the stages before it, and within the last of them the parts of its rows. */
  function StagesLeft(pr: Process): nat {
    match pr.phase
    case Starting => 4
    case Opening => if pr.ordered then 2 else 3
    case Working => 1
    case Finished => 0
  }

  function PartsLeft(pr: Process): int {
    if pr.phase == Working then 3 * |pr.actions| - |pr.points| - pr.locked - |pr.effects| else 0
  }

  predicate Nearer(before: Process, after: Process) {
    StagesLeft(after) < StagesLeft(before) || (StagesLeft(after) == StagesLeft(before) && PartsLeft(after) < PartsLeft(before))
  }

  /** A step of process `p` that brings it nearer to its end. */
  ghost predicate Advances(s: System, step: Step, p: nat) {
    && StepOf(step, p) && p < |s.processes| && Enabled(s, step)
    && Do(s, step).processes == s.processes[p := Do(s, step).processes[p]]
    && Nearer(s.processes[p], Do(s, step).processes[p])
  }

  lemma FreeProcessCanMove(s: System, p: nat)
    requires SystemOk(s) && Unfinished(s, p) && NextLockFree(s, p)
    ensures exists step :: Advances(s, step, p)
  {
    var pr := s.processes[p];
    assert ProcessOk(s.db, pr);
    var step := match pr.phase
      case Starting => TakeKey(p)
      case Opening => if OrderOf(pr.command).Some? && !pr.ordered then TakeOrder(p) else Open(p)
      case _ =>
        if |pr.effects| < pr.locked then Work(p)
        else if pr.locked < |pr.points| then TakeRow(p)
        else if |pr.points| < |pr.actions| then ReadPoint(p)
        else Commit(p);
    assert Advances(s, step, p);
  }

  /** Among the unfinished processes below `n`, one whose next lock no other of them has to wait behind. */
  lemma {:induction false} SomeNextLockIsLast(s: System, n: nat) returns (p: nat)
    requires n <= |s.processes| && exists q: nat :: q < n && Unfinished(s, q)
    ensures p < n && Unfinished(s, p)
    ensures NextLock(s.processes[p]).None?
            || forall q | 0 <= q < n && Unfinished(s, q) ::
                 NextLock(s.processes[q]).Some?
                 && !Before(NextLock(s.processes[p]).value, NextLock(s.processes[q]).value)
  {
    if exists q: nat :: q < n - 1 && Unfinished(s, q) {
      p := SomeNextLockIsLast(s, n - 1);
      if Unfinished(s, n - 1) && NextLock(s.processes[p]).Some?
         && (NextLock(s.processes[n - 1]).None?
             || Before(NextLock(s.processes[p]).value, NextLock(s.processes[n - 1]).value)) {
        p := n - 1;
      }
    } else {
      p := n - 1;
    }
  }

  /** While a transaction is unfinished, some transaction can take a step that brings it nearer to its end. */
  lemma SomebodyCanMove(s: System, unfinished: nat)
    requires SystemOk(s) && Unfinished(s, unfinished)
    ensures exists p: nat, step :: Advances(s, step, p)
  {
    var p := SomeNextLockIsLast(s, |s.processes|);
    if NextLock(s.processes[p]).Some? {
      var l := NextLock(s.processes[p]).value;
      forall q | 0 <= q < |s.processes| && q != p ensures !Holds(s.processes[q], l) {
        if Holds(s.processes[q], l) {
          assert Unfinished(s, q);
          HeldBeforeNext(s.db, s.processes[q], l);
        }
      }
    }
    FreeProcessCanMove(s, p);
  }

  // ----- So all of them can finish -----

  function AllStagesLeft(processes: seq<Process>): nat {
    if processes == [] then 0 else AllStagesLeft(processes[..|processes| - 1]) + StagesLeft(processes[|processes| - 1])
  }

  function AllPartsLeft(processes: seq<Process>): int {
    if processes == [] then 0 else AllPartsLeft(processes[..|processes| - 1]) + PartsLeft(processes[|processes| - 1])
  }

  lemma {:induction false} LeftAfterOne(processes: seq<Process>, p: nat, after: Process)
    requires p < |processes|
    ensures AllStagesLeft(processes[p := after]) == AllStagesLeft(processes) - StagesLeft(processes[p]) + StagesLeft(after)
    ensures AllPartsLeft(processes[p := after]) == AllPartsLeft(processes) - PartsLeft(processes[p]) + PartsLeft(after)
  {
    hide StagesLeft, PartsLeft;
    var last := |processes| - 1;
    if p < last {
      LeftAfterOne(processes[..last], p, after);
      assert processes[p := after][..last] == processes[..last][p := after];
    } else {
      assert processes[p := after][..last] == processes[..last];
    }
  }

  lemma {:induction false} PartsAreLeft(s: System, n: nat)
    requires SystemOk(s) && n <= |s.processes|
    ensures AllPartsLeft(s.processes[..n]) >= 0
  {
    if n > 0 {
      PartsAreLeft(s, n - 1);
      assert s.processes[..n][..n - 1] == s.processes[..n - 1];
      assert ProcessOk(s.db, s.processes[n - 1]);
    }
  }

  lemma AdvanceLeavesLess(s: System, step: Step, p: nat)
    requires SystemOk(s) && Advances(s, step, p)
    ensures var before, after := s.processes, Do(s, step).processes;
            && AllPartsLeft(before) >= 0
            && (AllStagesLeft(after) < AllStagesLeft(before)
                || (AllStagesLeft(after) == AllStagesLeft(before) && AllPartsLeft(after) < AllPartsLeft(before)))
  {
    hide Do, SystemOk, StagesLeft, PartsLeft;
    PartsAreLeft(s, |s.processes|);
    assert s.processes[..|s.processes|] == s.processes;
    LeftAfterOne(s.processes, p, Do(s, step).processes[p]);
  }

  /** A step of one of the transactions: none is started or given up, and no reorder point is edited. */
  ghost predicate ByTransaction(step: Step) {
    exists p: nat :: StepOf(step, p)
  }

  lemma AdvanceIsByTransaction(s: System, step: Step, p: nat)
    requires Advances(s, step, p)
    ensures ByTransaction(step)
  {
  }

  /**
   Whatever state transactions and edits have led to, every transaction in it can be brought to its end without
   giving any of them up.
   */
  lemma AllCanFinish(reorderPoints: map<nat, int>, steps: seq<Step>) returns (more: seq<Step>)
    ensures steps <= more && forall i | |steps| <= i < |more| :: ByTransaction(more[i])
    ensures forall p: nat :: !Unfinished(Run(Initially(reorderPoints), more), p)
    decreases AllStagesLeft(Run(Initially(reorderPoints), steps).processes),
              AllPartsLeft(Run(Initially(reorderPoints), steps).processes)
  {
    hide Do, SystemOk, Advances;
    var s := Run(Initially(reorderPoints), steps);
    InitiallyOk(reorderPoints);
    RunKeepsOk(Initially(reorderPoints), steps);
    if p: nat :| Unfinished(s, p) {
      SomebodyCanMove(s, p);
      var q: nat, step :| Advances(s, step, q);
      assert (steps + [step])[..|steps|] == steps;
      AdvanceLeavesLess(s, step, q);
      AdvanceIsByTransaction(s, step, q);
      more := AllCanFinish(reorderPoints, steps + [step]);
    } else {
      more := steps;
    }
  }
}

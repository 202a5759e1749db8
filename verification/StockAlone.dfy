/** Commands executed alone, with the reorder points of the tables they start from. */
module StockAlone {
  import opened Wrappers
  import opened StockLedger

  /** The reorder points that `actions` read when nothing else runs. */
  ghost function PointsNow(db: Database, actions: seq<Action>): (points: seq<int>)
    ensures |points| == |actions|
    ensures forall i | 0 <= i < |actions| :: points[i] == ReorderPoint(db, actions[i].product)
  {
    seq(|actions|, i requires 0 <= i < |actions| => ReorderPoint(db, actions[i].product))
  }

  /** `c` executed alone on `db`, with the reorder points and rows that `db` holds. */
  ghost function ExecuteNow(db: Database, c: Command, rows: seq<nat>): Result<Database, Refusal> {
    Execute(db, c, rows, if Admit(db, c).None? then PointsNow(db, Plan(db, c, rows)) else [])
  }

  /** The effect of `actions` with the reorder points of `db` itself. */
  ghost function ApplyNow(db: Database, actions: seq<Action>): Result<Database, Refusal> {
    ApplyActions(db, actions, PointsNow(db, actions))
  }

  lemma {:induction false} OnlyPointsReadMatter(db: Database, actions: seq<Action>, p: seq<int>, q: seq<int>)
    requires forall i | 0 <= i < |actions| :: PointAt(p, i) == PointAt(q, i)
    ensures ApplyActions(db, actions, p) == ApplyActions(db, actions, q)
  {
    if actions != [] {
      OnlyPointsReadMatter(db, actions[..|actions| - 1], p, q);
    }
  }

  /** One more action after a prefix that succeeded. */
  lemma ApplyNext(db: Database, actions: seq<Action>, i: nat)
    requires i < |actions|
    ensures ApplyNow(db, actions[..i + 1])
            == match ApplyNow(db, actions[..i])
               case Failure(refusal) => Failure(refusal)
               case Success(mid) => ApplyAction(mid, actions[i], ReorderPoint(db, actions[i].product))
  {
    hide ApplyAction, ReorderPoint;
    var more := actions[..i + 1];
    assert more[..i] == actions[..i];
    OnlyPointsReadMatter(db, actions[..i], PointsNow(db, more), PointsNow(db, actions[..i]));
  }

  /** A refused action refuses the whole command. */
  lemma {:induction false} RefusalIsFinal(db: Database, actions: seq<Action>, i: nat)
    requires i <= |actions| && ApplyNow(db, actions[..i]).Failure?
    ensures ApplyNow(db, actions) == ApplyNow(db, actions[..i])
    decreases |actions| - i
  {
    if i == |actions| {
      assert actions[..i] == actions;
    } else {
      ApplyNext(db, actions, i);
      RefusalIsFinal(db, actions, i + 1);
    }
  }

  lemma RefusalIsFinalIfRefused(db: Database, actions: seq<Action>, i: nat)
    requires i <= |actions|
    ensures ApplyNow(db, actions[..i]).Failure? ==> ApplyNow(db, actions) == ApplyNow(db, actions[..i])
  {
    if ApplyNow(db, actions[..i]).Failure? {
      RefusalIsFinal(db, actions, i);
    }
  }

  lemma ApplyOne(db: Database, a: Action)
    ensures ApplyNow(db, [a]) == ApplyAction(db, a, ReorderPoint(db, a.product))
  {
    assert [a][..1] == [a] && [a][..0] == [];
    ApplyNext(db, [a], 0);
  }
}

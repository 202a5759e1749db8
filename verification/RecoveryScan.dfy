/**
 The scheduled recovery of failed deliveries: a keyset-paged scan while deliveries keep changing between
 its pages. `eligible(q)` is the set of delivery ids that the `q`-th page query selects from.
 */
module RecoveryScan {
  import opened Wrappers
  import opened Deliveries
  import opened DeliveryRuns
  import Enumeration

  const PAGE_SIZE: nat := 100

  function Matching(selected: set<nat>, cursor: Option<nat>): set<nat> {
    set id | id in selected && (cursor.Some? ==> id > cursor.value)
  }

  /** The first hundred selected ids after the cursor, in ascending order. */
  ghost function Page(selected: set<nat>, cursor: Option<nat>): seq<nat> {
    var after := Enumeration.Ascending(Matching(selected, cursor));
    if |after| <= PAGE_SIZE then after else after[..PAGE_SIZE]
  }

  /** Delivery ids are UUIDs: numbers below some bound. */
  ghost predicate Bounded(eligible: nat -> set<nat>, bound: nat) {
    forall q: nat, id | id in eligible(q) :: id < bound
  }

  ghost predicate Above(cursor: Option<nat>, id: nat) {
    cursor.Some? ==> id > cursor.value
  }

  lemma PageSpec(selected: set<nat>, cursor: Option<nat>)
    ensures var page := Page(selected, cursor);
            && |page| <= PAGE_SIZE
            && (forall i, j | 0 <= i < j < |page| :: page[i] < page[j])
            && (forall id | id in page :: id in selected && Above(cursor, id))
            && (forall id | id in selected && Above(cursor, id) ::
                  id in page || (|page| == PAGE_SIZE && id > page[PAGE_SIZE - 1]))
  {
    var matching := Matching(selected, cursor);
    var after := Enumeration.Ascending(matching);
    Enumeration.AscendingIsSorted(matching);
    forall id | id in selected && Above(cursor, id)
      ensures id in Page(selected, cursor) || (|after| > PAGE_SIZE && id > after[PAGE_SIZE - 1])
    {
      assert id in after;
      var i :| 0 <= i < |after| && after[i] == id;
      if |after| > PAGE_SIZE && i < PAGE_SIZE {
        assert after[..PAGE_SIZE][i] == id;
      }
    }
    forall id | id in Page(selected, cursor) ensures id in selected && Above(cursor, id) {
      assert id in after;
    }
  }

  method SelectPage(selected: set<nat>, cursor: Option<nat>) returns (page: seq<nat>)
    ensures page == Page(selected, cursor)
  {
    var rest := Matching(selected, cursor);
    ghost var all := Enumeration.Ascending(rest);
    page := [];
    while rest != {} && |page| < PAGE_SIZE
      invariant page + Enumeration.Ascending(rest) == all && |page| <= PAGE_SIZE
      decreases |rest|
    {
      Enumeration.LeastExists(rest);
      var id :| id in rest && forall other | other in rest :: id <= other;
      AppendLeast(page, rest, id);
      page := page + [id];
      rest := rest - {id};
    }
    assert all[..|page|] == page;
    assert rest != {} ==> Enumeration.Ascending(rest) != [];
  }

  lemma AppendLeast(page: seq<nat>, rest: set<nat>, id: nat)
    requires id in rest && forall other | other in rest :: id <= other
    ensures page + [id] + Enumeration.Ascending(rest - {id}) == page + Enumeration.Ascending(rest)
  {
    assert id == Enumeration.Least(rest);
    var tail := Enumeration.Ascending(rest - {id});
    assert page + ([id] + tail) == page + [id] + tail;
  }

  /** A visited delivery is enqueued exactly when it had no pending job, and nothing else is. */
  ghost predicate EnqueuedOk(visited: seq<nat>, enqueued: seq<nat>, pending: nat -> bool) {
    && (forall i | 0 <= i < |visited| :: visited[i] in enqueued <==> !pending(i))
    && (forall id | id in enqueued :: id in visited)
  }

  ghost predicate SelectedThroughout(eligible: nat -> set<nat>, queries: nat, id: nat) {
    forall q: nat | q < queries :: id in eligible(q)
  }

  ghost predicate SelectedOnce(eligible: nat -> set<nat>, queries: nat, id: nat) {
    exists q: nat :: q < queries && id in eligible(q)
  }

  ghost predicate VisitedInOrder(visited: seq<nat>) {
    forall i, j | 0 <= i < j < |visited| :: visited[i] < visited[j]
  }

  /** A finished scan has visited everything that every one of its queries could select, each id once and in order. */
  ghost predicate ScanComplete(eligible: nat -> set<nat>, visited: seq<nat>, queries: nat) {
    && VisitedInOrder(visited)
    && (forall id | id in visited :: SelectedOnce(eligible, queries, id))
    && (forall id: nat | SelectedThroughout(eligible, queries, id) :: id in visited)
  }

  /** The same for the ids up to the cursor. */
  ghost predicate ScannedTo(eligible: nat -> set<nat>, visited: seq<nat>, queries: nat, cursor: Option<nat>) {
    && VisitedInOrder(visited)
    && (forall id | id in visited :: SelectedOnce(eligible, queries, id) && !Above(cursor, id))
    && (forall id: nat | SelectedThroughout(eligible, queries, id) && !Above(cursor, id) :: id in visited)
  }

  lemma NextPage(eligible: nat -> set<nat>, visited: seq<nat>, queries: nat, cursor: Option<nat>)
    requires ScannedTo(eligible, visited, queries, cursor)
    ensures var page := Page(eligible(queries), cursor);
            if |page| < PAGE_SIZE then ScanComplete(eligible, visited + page, queries + 1)
            else ScannedTo(eligible, visited + page, queries + 1, Some(page[|page| - 1]))
  {
    var page := Page(eligible(queries), cursor);
    PageSpec(eligible(queries), cursor);
    var all := visited + page;
    forall i, j | 0 <= i < j < |all| ensures all[i] < all[j] {
      if i < |visited| <= j {
        assert visited[i] in visited && page[j - |visited|] in page;
      }
    }
    forall id | id in all
      ensures SelectedOnce(eligible, queries + 1, id)
      ensures |page| == PAGE_SIZE ==> id <= page[|page| - 1]
    {
      if id in visited {
        var q: nat :| q < queries && id in eligible(q);
      } else {
        assert id in eligible(queries);
      }
      if |page| == PAGE_SIZE {
        assert page[|page| - 1] in page;
      }
    }
    forall id: nat | SelectedThroughout(eligible, queries + 1, id)
      ensures id in all || (|page| == PAGE_SIZE && id > page[|page| - 1])
    {
      assert SelectedThroughout(eligible, queries, id) && id in eligible(queries);
    }
  }

  lemma PageMovesOn(eligible: nat -> set<nat>, bound: nat, q: nat, cursor: Option<nat>)
    requires Bounded(eligible, bound)
    ensures var page := Page(eligible(q), cursor);
            page != [] ==> page[|page| - 1] < bound && Above(cursor, page[|page| - 1])
  {
    PageSpec(eligible(q), cursor);
    var page := Page(eligible(q), cursor);
    if page != [] {
      assert page[|page| - 1] in page;
    }
  }

  /** Looks at the deliveries of one page; one that has no pending job gets one. */
  method EnqueuePage(page: seq<nat>, first: nat, pending: nat -> bool) returns (enqueued: seq<nat>)
    requires VisitedInOrder(page)
    ensures forall i | 0 <= i < |page| :: page[i] in enqueued <==> !pending(first + i)
    ensures forall id | id in enqueued :: id in page
  {
    enqueued := [];
    for i := 0 to |page|
      invariant forall j | 0 <= j < i :: page[j] in enqueued <==> !pending(first + j)
      invariant forall id | id in enqueued :: id in page[..i]
    {
      if !pending(first + i) {
        enqueued := enqueued + [page[i]];
      }
    }
  }

  lemma EnqueuedSoFar(visited: seq<nat>, page: seq<nat>, cursor: Option<nat>, enqueued: seq<nat>, more: seq<nat>, pending: nat -> bool)
    requires forall id | id in visited :: !Above(cursor, id)
    requires forall id | id in page :: Above(cursor, id)
    requires EnqueuedOk(visited, enqueued, pending)
    requires forall i | 0 <= i < |page| :: page[i] in more <==> !pending(|visited| + i)
    requires forall id | id in more :: id in page
    ensures EnqueuedOk(visited + page, enqueued + more, pending)
  {
    forall i | 0 <= i < |visited + page| ensures (visited + page)[i] in enqueued + more <==> !pending(i) {
      if i < |visited| {
        assert visited[i] in visited;
      } else {
        assert page[i - |visited|] in page;
      }
    }
  }

  method VisitPage(eligible: nat -> set<nat>, visited: seq<nat>, queries: nat, cursor: Option<nat>, before: seq<nat>, pending: nat -> bool)
    returns (page: seq<nat>, enqueued: seq<nat>)
    requires ScannedTo(eligible, visited, queries, cursor) && EnqueuedOk(visited, before, pending)
    ensures page == Page(eligible(queries), cursor)
    ensures EnqueuedOk(visited + page, enqueued, pending)
  {
    page := SelectPage(eligible(queries), cursor);
    PageSpec(eligible(queries), cursor);
    var more := EnqueuePage(page, |visited|, pending);
    EnqueuedSoFar(visited, page, cursor, before, more, pending);
    enqueued := before + more;
  }

  /**
   Scans one workspace page by page. `pending(i)` says whether the queue already holds a job when the
   `i`-th visited delivery is looked at.
   */
  method RecoverFailedDeliveries(eligible: nat -> set<nat>, bound: nat, pending: nat -> bool)
    returns (visited: seq<nat>, enqueued: seq<nat>, queries: nat)
    requires Bounded(eligible, bound)
    ensures queries > 0 && ScanComplete(eligible, visited, queries) && EnqueuedOk(visited, enqueued, pending)
  {
    visited, enqueued, queries := [], [], 0;
    var cursor: Option<nat> := None;
    while true
      invariant cursor.Some? ==> cursor.value < bound
      invariant cursor.None? ==> visited == []
      invariant ScannedTo(eligible, visited, queries, cursor)
      invariant EnqueuedOk(visited, enqueued, pending)
      decreases if cursor.Some? then bound - cursor.value else bound + 1
    {
      NextPage(eligible, visited, queries, cursor);
      PageMovesOn(eligible, bound, queries, cursor);
      var page;
      page, enqueued := VisitPage(eligible, visited, queries, cursor, enqueued, pending);
      visited := visited + page;
      queries := queries + 1;
      if |page| < PAGE_SIZE {
        return;
      }
      cursor := Some(page[|page| - 1]);
    }
  }

  // ----- The scan against the deliveries themselves -----

  ghost predicate Recoverable(s: State, id: nat) {
    && id in s.deliveries && s.deliveries[id].status == FAILED
    && s.deliveries[id].attempts < MAX_AUTOMATIC_DELIVERY_ATTEMPTS
  }

  /** A delivery that is recoverable after any number of steps was so at every moment since it exists. */
  lemma {:induction false} RecoverableSince(s: System, steps: seq<Step>, n: nat, id: nat)
    requires StateOk(s.state) && id in s.state.deliveries && n <= |steps|
    requires Recoverable(Run(s, steps).state, id)
    ensures Recoverable(Run(s, steps[..n]).state, id)
    decreases |steps| - n
  {
    if n == |steps| {
      assert steps[..n] == steps;
    } else {
      RecoverableSince(s, steps, n + 1, id);
      assert steps[..n + 1][..n] == steps[..n];
      RunKeepsOk(s, steps[..n]);
      KnownStaysKnown(s, steps[..n], id);
      RecoverableBefore(Run(s, steps[..n]), steps[n], id);
    }
  }

  lemma {:induction false} KnownStaysKnown(s: System, steps: seq<Step>, id: nat)
    requires id in s.state.deliveries
    ensures id in Run(s, steps).state.deliveries
  {
    if steps != [] {
      KnownStaysKnown(s, steps[..|steps| - 1], id);
      StepCountsAttempts(Run(s, steps[..|steps| - 1]), steps[|steps| - 1], id);
    }
  }

  lemma RecoverableBefore(s: System, step: Step, id: nat)
    requires StateOk(s.state) && id in s.state.deliveries && Recoverable(Do(s, step).state, id)
    ensures Recoverable(s.state, id)
  {
    StepCountsAttempts(s, step, id);
    assert DeliveryOk(s.state, id);
  }

  /**
   Whatever arrives and is retried between the pages, a delivery that existed when a completed scan began
   and is still FAILED with attempts left after its last query was visited, and visited once. `at(q)` is
   how many steps had been taken when query `q` ran.
   */
  lemma RecoveryMissesNothing(s: System, steps: seq<Step>, at: nat -> nat, eligible: nat -> set<nat>, visited: seq<nat>, queries: nat, id: nat)
    requires StateOk(s.state) && id in s.state.deliveries && Recoverable(Run(s, steps).state, id)
    requires forall q: nat | q < queries :: at(q) <= |steps|
    requires forall q: nat, k: nat | q < queries && at(q) <= |steps| ::
               k in eligible(q) <==> Recoverable(Run(s, steps[..at(q)]).state, k)
    requires ScanComplete(eligible, visited, queries)
    ensures id in visited && forall i, j | 0 <= i < j < |visited| :: visited[i] != visited[j]
  {
    forall q: nat | q < queries ensures id in eligible(q) {
      RecoverableSince(s, steps, at(q), id);
    }
    assert SelectedThroughout(eligible, queries, id);
  }
}

/**
 Product images kept in outside storage (apps/api/src/catalog/product-image.service.ts): a product row points
 to an asset, and the row and the asset change in separate steps, any of which can fail.
 */
module ProductImages {
  import opened Wrappers

  /** Assets are numbered as they are uploaded; `owner` says for which product each one was. */
  datatype Images = Images(pointers: map<nat, Option<nat>>, storage: set<nat>, owner: seq<nat>)

  /** No row points to an asset that is gone. */
  ghost predicate NoDangling(s: Images) {
    forall p | p in s.pointers && s.pointers[p].Some? :: s.pointers[p].value in s.storage
  }

  /** Assets that no row points to. */
  ghost predicate NoOrphans(s: Images) {
    forall a | a in s.storage :: exists p :: p in s.pointers && s.pointers[p] == Some(a)
  }

  // ----- The service, one request at a time -----

  datatype Outcome = Changed | Unchanged | ProductNotFound | StorageFailed | DatabaseFailed

  class ProductImageService {
    var pointers: map<nat, Option<nat>>
    var storage: set<nat>
    var owner: seq<nat>

    function State(): Images
      reads this
    {
      Images(pointers, storage, owner)
    }

    method Destroy(asset: nat, ok: bool)
      modifies this`storage
      ensures storage == if ok then old(storage) - {asset} else old(storage)
    {
      if ok {
        storage := storage - {asset};
      }
    }

    /** Each flag says whether that step succeeds; `kept` says whether an upload call that fails stored the asset. */
    method UploadProductImage(product: nat, uploadOk: bool, kept: bool, databaseOk: bool, cleanupOk: bool) returns (r: Outcome)
      modifies this
      ensures r == if product !in old(pointers) then ProductNotFound
                   else if !uploadOk then StorageFailed else if !databaseOk then DatabaseFailed else Changed
      ensures r == Changed ==> pointers == old(pointers)[product := Some(|old(owner)|)] && owner == old(owner) + [product]
      ensures r == Changed ==>
                var all, existing := old(storage) + {|old(owner)|}, old(pointers)[product];
                storage == if cleanupOk && existing.Some? && existing.value != |old(owner)| then all - {existing.value} else all
      ensures r != Changed ==> pointers == old(pointers)
      ensures r == ProductNotFound ==> State() == old(State())
      ensures r == StorageFailed ==> State() == if kept then Upload(old(State()), product) else old(State())
      ensures r == DatabaseFailed ==> owner == old(owner) + [product]
      ensures r == DatabaseFailed ==>
                storage == if cleanupOk then old(storage) - {|old(owner)|} else old(storage) + {|old(owner)|}
    {
      if product !in pointers {
        return ProductNotFound;
      }
      var existing := pointers[product];
      var uploaded := |owner|;
      if uploadOk || kept {
        owner := owner + [product];
        storage := storage + {uploaded};
      }
      if !uploadOk {
        return StorageFailed;
      }
      if !databaseOk {
        Destroy(uploaded, cleanupOk);
        return DatabaseFailed;
      }
      pointers := pointers[product := Some(uploaded)];
      if existing.Some? && existing.value != uploaded {
        Destroy(existing.value, cleanupOk);
      }
      return Changed;
    }

    method DeleteProductImage(product: nat, databaseOk: bool, cleanupOk: bool) returns (r: Outcome)
      modifies this`pointers, this`storage
      ensures r == if product !in old(pointers) then ProductNotFound
                   else if old(pointers)[product].None? then Unchanged
                   else if !databaseOk then DatabaseFailed else Changed
      ensures r == Changed ==> pointers == old(pointers)[product := None]
      ensures r == Changed ==> storage == if cleanupOk then old(storage) - {old(pointers)[product].value} else old(storage)
      ensures r != Changed ==> State() == old(State())
    {
      if product !in pointers {
        return ProductNotFound;
      }
      var existing := pointers[product];
      if existing.None? {
        return Unchanged;
      }
      if !databaseOk {
        return DatabaseFailed;
      }
      pointers := pointers[product := None];
      Destroy(existing.value, cleanupOk);
      return Changed;
    }
  }

  // ----- Requests interleaved -----

  datatype Phase =
    | Start
    | Seen(existing: Option<nat>)
    | Stored(existing: Option<nat>, uploaded: nat)
    | Retiring(asset: nat)
    | Cleaning(asset: nat)
    | Done

  datatype Process = Process(product: nat, deleting: bool, phase: Phase)

  datatype System = System(images: Images, processes: seq<Process>)

  datatype Step =
    | Begin(product: nat, deleting: bool)
    | Advance(process: nat, ok: bool)
    | Crash(process: nat)
    /** The storage keeps the asset but reports a failure. */
    | StoreThenFail(process: nat)
    /** The database commits but reports a failure. */
    | CommitThenFail(process: nat)

  function Upload(s: Images, product: nat): Images {
    s.(storage := s.storage + {|s.owner|}, owner := s.owner + [product])
  }

  function Point(s: Images, product: nat, asset: Option<nat>): Images {
    s.(pointers := s.pointers[product := asset])
  }

  function Destroyed(s: Images, asset: nat, ok: bool): Images {
    if ok then s.(storage := s.storage - {asset}) else s
  }

  /** The next action of a process, and where it leaves the process. */
  function Act(s: Images, p: Process, ok: bool): (Images, Phase) {
    match p.phase
    case Start =>
      (s, if p.product !in s.pointers || (p.deleting && s.pointers[p.product].None?) then Done else Seen(s.pointers[p.product]))
    case Seen(existing) =>
      if !ok then (s, Done)
      else if p.deleting then
        (Point(s, p.product, None), if existing.Some? then Retiring(existing.value) else Done)
      else (Upload(s, p.product), Stored(existing, |s.owner|))
    case Stored(existing, uploaded) =>
      if !ok then (s, Cleaning(uploaded))
      else
        (Point(s, p.product, Some(uploaded)),
         if existing.Some? && existing.value != uploaded then Retiring(existing.value) else Done)
    case Retiring(asset) => (Destroyed(s, asset, ok), Done)
    case Cleaning(asset) => (Destroyed(s, asset, ok), Done)
    case Done => (s, Done)
  }

  function Move(s: System, i: nat, images: Images, phase: Phase): System
    requires i < |s.processes|
  {
    System(images, s.processes[i := s.processes[i].(phase := phase)])
  }

  function Do(s: System, step: Step): System {
    match step
    case Begin(product, deleting) => s.(processes := s.processes + [Process(product, deleting, Start)])
    case Advance(i, ok) =>
      if i < |s.processes| then
        var r := Act(s.images, s.processes[i], ok);
        Move(s, i, r.0, r.1)
      else s
    case Crash(i) => if i < |s.processes| then Move(s, i, s.images, Done) else s
    case StoreThenFail(i) =>
      if i < |s.processes| && s.processes[i].phase.Seen? && !s.processes[i].deleting
      then Move(s, i, Upload(s.images, s.processes[i].product), Done) else s
    case CommitThenFail(i) =>
      if i < |s.processes| && s.processes[i].phase.Stored?
      then Move(s, i, Point(s.images, s.processes[i].product, Some(s.processes[i].phase.uploaded)),
                Cleaning(s.processes[i].phase.uploaded))
      else if i < |s.processes| && s.processes[i].phase.Seen? && s.processes[i].deleting
      then Move(s, i, Point(s.images, s.processes[i].product, None), Done)
      else s
  }

  function Run(s: System, steps: seq<Step>): System {
    if steps == [] then s else Do(Run(s, steps[..|steps| - 1]), steps[|steps| - 1])
  }

  /** A request that runs from its beginning with nothing between its steps; the flags say which of them succeed. */
  function Requested(s: System, product: nat, deleting: bool, first: bool, second: bool, third: bool): Images {
    var i := |s.processes|;
    var seen := Do(Do(s, Begin(product, deleting)), Advance(i, true));
    Do(Do(Do(seen, Advance(i, first)), Advance(i, second)), Advance(i, third)).images
  }

  /** Then an upload, in the steps of the protocol, does to rows and storage what the service's method does. */
  lemma UploadAlone(s: System, product: nat, uploadOk: bool, databaseOk: bool, cleanupOk: bool)
    ensures var before, after := s.images, Requested(s, product, false, uploadOk, databaseOk, cleanupOk);
            var uploaded := |before.owner|;
            if product !in before.pointers || !uploadOk then after == before
            else if !databaseOk then
              && after.pointers == before.pointers && after.owner == before.owner + [product]
              && after.storage == before.storage + {uploaded} - if cleanupOk then {uploaded} else {}
            else
              var existing := before.pointers[product];
              && after.pointers == before.pointers[product := Some(uploaded)] && after.owner == before.owner + [product]
              && after.storage == before.storage + {uploaded}
                 - if cleanupOk && existing.Some? && existing.value != uploaded then {existing.value} else {}
  {
  }

  /** So does a deletion. */
  lemma DeleteAlone(s: System, product: nat, databaseOk: bool, cleanupOk: bool, last: bool)
    ensures var before, after := s.images, Requested(s, product, true, databaseOk, cleanupOk, last);
            if product !in before.pointers || before.pointers[product].None? || !databaseOk then after == before
            else
              && after.pointers == before.pointers[product := None] && after.owner == before.owner
              && after.storage == before.storage - if cleanupOk then {before.pointers[product].value} else {}
  {
  }

  // ----- Why pointers stay good -----

  /** The asset a process has stored and not yet pointed to. */
  function New(phase: Phase): Option<nat> {
    match phase
    case Stored(_, uploaded) => Some(uploaded)
    case Cleaning(asset) => Some(asset)
    case _ => None
  }

  /** The asset a process has seen the row point to. */
  function Old(phase: Phase): Option<nat> {
    match phase
    case Seen(existing) => existing
    case Stored(existing, _) => existing
    case Retiring(asset) => Some(asset)
    case _ => None
  }

  predicate OwnedBy(s: Images, asset: nat, product: nat) {
    asset < |s.owner| && s.owner[asset] == product
  }

  /** Each row points to an existing asset that was uploaded for it. */
  ghost predicate ImagesOk(s: Images) {
    && NoDangling(s)
    && (forall p | p in s.pointers && s.pointers[p].Some? :: OwnedBy(s, s.pointers[p].value, p))
  }

  ghost predicate ProcessOk(s: Images, p: Process) {
    && (p.phase != Start && p.phase != Done && !p.phase.Cleaning? ==> p.product in s.pointers)
    && (Old(p.phase).Some? ==> OwnedBy(s, Old(p.phase).value, p.product))
    && (New(p.phase).Some? ==>
          OwnedBy(s, New(p.phase).value, p.product) && (p.product in s.pointers ==> s.pointers[p.product] != New(p.phase)))
    && (p.phase.Stored? ==> p.phase.uploaded in s.storage)
    && (p.phase.Retiring? && p.product in s.pointers ==> s.pointers[p.product] != Some(p.phase.asset))
  }

  /** Nobody else knows of an asset that has not been pointed to. */
  ghost predicate Private(s: System, i: nat, j: nat)
    requires i < |s.processes| && j < |s.processes|
  {
    i != j && New(s.processes[i].phase).Some? ==>
      New(s.processes[j].phase) != New(s.processes[i].phase) && Old(s.processes[j].phase) != New(s.processes[i].phase)
  }

  ghost predicate SystemOk(s: System) {
    && ImagesOk(s.images)
    && (forall i | 0 <= i < |s.processes| :: ProcessOk(s.images, s.processes[i]))
    && (forall i, j | 0 <= i < |s.processes| && 0 <= j < |s.processes| :: Private(s, i, j))
  }

  /** What a process may do to the images without harming another process. */
  ghost predicate Harmless(s: Images, t: Images, q: Process) {
    && s.owner <= t.owner && t.pointers.Keys == s.pointers.Keys
    && (q.phase.Stored? ==> q.phase.uploaded in s.storage ==> q.phase.uploaded in t.storage)
    && (forall p | p in s.pointers ::
          t.pointers[p] == s.pointers[p] || (t.pointers[p] != New(q.phase) && t.pointers[p] != Old(q.phase)) || t.pointers[p] == None)
  }

  lemma HarmlessKeepsProcess(s: Images, t: Images, q: Process)
    requires ProcessOk(s, q) && Harmless(s, t, q)
    ensures ProcessOk(t, q)
  {
  }

  lemma ActIsHarmless(s: System, i: nat, j: nat, ok: bool)
    requires SystemOk(s) && i < |s.processes| && j < |s.processes| && i != j
    ensures Harmless(s.images, Act(s.images, s.processes[i], ok).0, s.processes[j])
  {
    assert Private(s, i, j) && Private(s, j, i);
    assert ProcessOk(s.images, s.processes[i]) && ProcessOk(s.images, s.processes[j]);
  }

  lemma ActKeepsImages(s: Images, p: Process, ok: bool)
    requires ImagesOk(s) && ProcessOk(s, p)
    ensures ImagesOk(Act(s, p, ok).0) && ProcessOk(Act(s, p, ok).0, p.(phase := Act(s, p, ok).1))
  {
  }

  lemma ActKeepsPrivate(s: System, i: nat, j: nat, ok: bool)
    requires SystemOk(s) && i < |s.processes| && j < |s.processes| && i != j
    ensures var r := Act(s.images, s.processes[i], ok);
            Private(Move(s, i, r.0, r.1), i, j) && Private(Move(s, i, r.0, r.1), j, i)
  {
    assert Private(s, i, j) && Private(s, j, i);
    assert ProcessOk(s.images, s.processes[i]) && ProcessOk(s.images, s.processes[j]);
  }

  lemma AdvanceKeepsOk(s: System, i: nat, ok: bool)
    requires SystemOk(s) && i < |s.processes|
    ensures SystemOk(Do(s, Advance(i, ok)))
  {
    var after := Do(s, Advance(i, ok));
    ActKeepsImages(s.images, s.processes[i], ok);
    forall j | 0 <= j < |s.processes| && j != i ensures ProcessOk(after.images, s.processes[j]) {
      ActIsHarmless(s, i, j, ok);
      HarmlessKeepsProcess(s.images, after.images, s.processes[j]);
    }
    forall j, k | 0 <= j < |s.processes| && 0 <= k < |s.processes| ensures Private(after, j, k) {
      assert Private(s, j, k);
      if j != k && (j == i || k == i) {
        ActKeepsPrivate(s, i, if j == i then k else j, ok);
      }
    }
  }

  /** A process that ends early, having stored nothing, stored an orphan, or cleared the row. */
  lemma EndKeepsOk(s: System, i: nat, t: Images)
    requires SystemOk(s) && i < |s.processes| && ImagesOk(t)
    requires forall j | 0 <= j < |s.processes| && j != i :: Harmless(s.images, t, s.processes[j])
    ensures SystemOk(Move(s, i, t, Done))
  {
    var after := Move(s, i, t, Done);
    forall j | 0 <= j < |s.processes| && j != i ensures ProcessOk(t, s.processes[j]) {
      HarmlessKeepsProcess(s.images, t, s.processes[j]);
    }
    forall j, k | 0 <= j < |s.processes| && 0 <= k < |s.processes| ensures Private(after, j, k) {
      assert Private(s, j, k);
    }
  }

  /** Whether a step commits a new image and reports a failure. */
  predicate LosesCommit(s: System, step: Step) {
    step.CommitThenFail? && step.process < |s.processes| && s.processes[step.process].phase.Stored?
  }

  lemma StepKeepsOk(s: System, step: Step)
    requires SystemOk(s) && !LosesCommit(s, step)
    ensures SystemOk(Do(s, step))
  {
    match step
    case Begin(product, deleting) =>
      var after := Do(s, step);
      forall j, k | 0 <= j < |after.processes| && 0 <= k < |after.processes| ensures Private(after, j, k) {
        assert j < |s.processes| && k < |s.processes| ==> Private(s, j, k);
      }
    case Advance(i, ok) =>
      if i < |s.processes| {
        AdvanceKeepsOk(s, i, ok);
      }
    case Crash(i) =>
      if i < |s.processes| {
        EndKeepsOk(s, i, s.images);
      }
    case StoreThenFail(i) =>
      if i < |s.processes| && s.processes[i].phase.Seen? && !s.processes[i].deleting {
        EndKeepsOk(s, i, Upload(s.images, s.processes[i].product));
      }
    case CommitThenFail(i) =>
      if i < |s.processes| && s.processes[i].phase.Seen? && s.processes[i].deleting {
        assert ProcessOk(s.images, s.processes[i]);
        EndKeepsOk(s, i, Point(s.images, s.processes[i].product, None));
      }
  }

  /** No step of the run commits a new image and reports a failure. */
  ghost predicate FailuresRollBack(s: System, steps: seq<Step>) {
    steps != [] ==>
      FailuresRollBack(s, steps[..|steps| - 1]) && !LosesCommit(Run(s, steps[..|steps| - 1]), steps[|steps| - 1])
  }

  /**
   However uploads and deletes interleave, and whichever storage calls fail, database steps roll back or
   requests die half-way, no row ever points to an asset that is gone.
   */
  lemma {:induction false} NeverDangling(images: Images, steps: seq<Step>)
    requires ImagesOk(images) && FailuresRollBack(System(images, []), steps)
    ensures NoDangling(Run(System(images, []), steps).images) && SystemOk(Run(System(images, []), steps))
  {
    if steps != [] {
      NeverDangling(images, steps[..|steps| - 1]);
      StepKeepsOk(Run(System(images, []), steps[..|steps| - 1]), steps[|steps| - 1]);
    }
  }

  /**
   The condition is needed: from any point, an upload whose commit is reported as a failure leaves its row
   dangling exactly when its clean-up works, since that removes the asset the row now points to.
   */
  lemma LostCommitDangles(s: System, product: nat, ok: bool)
    requires SystemOk(s) && product in s.images.pointers
    ensures var i := |s.processes|;
            var s1 := Do(Do(Do(s, Begin(product, false)), Advance(i, true)), Advance(i, true));
            LosesCommit(s1, CommitThenFail(i)) && (NoDangling(Do(Do(s1, CommitThenFail(i)), Advance(i, ok)).images) <==> !ok)
  {
    var i := |s.processes|;
    var s1 := Do(Do(Do(s, Begin(product, false)), Advance(i, true)), Advance(i, true));
    var uploaded := |s.images.owner|;
    assert s1.processes[i].phase == Stored(s.images.pointers[product], uploaded);
    var after := Do(Do(s1, CommitThenFail(i)), Advance(i, ok));
    assert after.images.pointers == s.images.pointers[product := Some(uploaded)];
    assert after.images.storage == Destroyed(Upload(s.images, product), uploaded, ok).storage;
    assert ok ==> after.images.pointers[product] == Some(uploaded) && uploaded !in after.images.storage;
  }

  /** So, with a product to upload for, no run leaves a row dangling exactly when no new image's commit is reported lost. */
  lemma NeverDanglesIff(images: Images, product: nat, lossy: bool)
    requires ImagesOk(images) && product in images.pointers
    ensures (forall steps | lossy || FailuresRollBack(System(images, []), steps) ::
               NoDangling(Run(System(images, []), steps).images))
            <==> !lossy
  {
    if lossy {
      var steps := LostCommit(images, product);
    } else {
      forall steps | FailuresRollBack(System(images, []), steps) ensures NoDangling(Run(System(images, []), steps).images) {
        NeverDangling(images, steps);
      }
    }
  }

  /** A run whose last upload loses its commit. */
  lemma LostCommit(images: Images, product: nat) returns (steps: seq<Step>)
    requires ImagesOk(images) && product in images.pointers
    ensures !NoDangling(Run(System(images, []), steps).images)
  {
    hide Do, NoDangling, LosesCommit;
    var s := System(images, []);
    steps := [Begin(product, false), Advance(0, true), Advance(0, true), CommitThenFail(0), Advance(0, true)];
    LostCommitDangles(s, product, true);
    RunNext(s, steps, 0);
    RunNext(s, steps, 1);
    RunNext(s, steps, 2);
    RunNext(s, steps, 3);
    RunNext(s, steps, 4);
    assert steps[..0] == [] && steps[..5] == steps;
  }

  lemma RunNext(s: System, steps: seq<Step>, n: nat)
    requires n < |steps|
    ensures Run(s, steps[..n + 1]) == Do(Run(s, steps[..n]), steps[n])
  {
    assert steps[..n + 1][..n] == steps[..n];
  }

  // ----- One request on its own -----

  /**
   Alone, and when its clean-up call succeeds, a request leaves an orphan exactly when its upload call stored the
   asset and reported a failure.
   */
  method RequestAlone(service: ProductImageService, product: nat, deleting: bool, uploadOk: bool, kept: bool, databaseOk: bool)
    returns (r: Outcome)
    requires ImagesOk(service.State()) && NoOrphans(service.State())
    modifies service
    ensures ImagesOk(service.State()) && (NoOrphans(service.State()) <==> !(r == StorageFailed && kept))
  {
    ghost var before := service.State();
    if deleting {
      r := service.DeleteProductImage(product, databaseOk, true);
    } else {
      r := service.UploadProductImage(product, uploadOk, kept, databaseOk, true);
    }
    if r == StorageFailed && kept {
      KeptIsOrphan(before, product);
    } else {
      AloneNoOrphans(before, service.State(), product, r == Changed);
    }
  }

  lemma KeptIsOrphan(s: Images, product: nat)
    requires ImagesOk(s)
    ensures ImagesOk(Upload(s, product)) && !NoOrphans(Upload(s, product))
  {
    var after := Upload(s, product);
    assert |s.owner| in after.storage;
  }

  lemma AloneNoOrphans(s: Images, t: Images, product: nat, changed: bool)
    requires ImagesOk(s) && NoOrphans(s)
    requires !changed ==> t.pointers == s.pointers && t.storage == s.storage && s.owner <= t.owner
    requires changed ==>
               && product in s.pointers && product in t.pointers
               && t.pointers == s.pointers[product := t.pointers[product]] && s.owner <= t.owner
               && var kept := if s.pointers[product].Some? then s.storage - {s.pointers[product].value} else s.storage;
                  if t.pointers[product].Some?
                  then OwnedBy(t, t.pointers[product].value, product) && t.storage == kept + {t.pointers[product].value}
                  else t.storage == kept
    ensures ImagesOk(t) && NoOrphans(t)
  {
    forall a | a in t.storage ensures exists p :: p in t.pointers && t.pointers[p] == Some(a) {
      if changed && t.pointers[product] == Some(a) {
        assert product in t.pointers;
      } else {
        var p :| p in s.pointers && s.pointers[p] == Some(a);
        assert p in t.pointers && t.pointers[p] == Some(a);
      }
    }
  }
}

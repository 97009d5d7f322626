// The reconciliation pass as the worker runs it: four scans that repair Redis and the
// queue in place, then one script that derives the stock.
module Reconciliation {
  import opened Types
  import opened RecoverySpec
  import Scripts = SaleScripts
  import SaleStore
  import OrderRepository
  import opened SweepSpec
  import opened FailedSweep
  import Meaning = RecoveryMeaning

  class Service {
    const repository: OrderRepository.Repository
    const store: SaleStore.Store
    var queue: map<UserId, Job>
    var incidents: map<UserId, set<IncidentKind>>
    var failedScanOffset: nat

    constructor (repository: OrderRepository.Repository, queue: map<UserId, Job>)
      ensures this.repository == repository && this.store == repository.store
      ensures this.queue == queue && this.incidents == map[] && this.failedScanOffset == 0
    {
      this.repository, this.store := repository, repository.store;
      this.queue, this.incidents, this.failedScanOffset := queue, map[], 0;
    }

    function IncidentsOf(u: UserId): set<IncidentKind>
      reads this`incidents
    {
      if u in incidents then incidents[u] else {}
    }

    /** What the pass sees of one user. */
    function CellOf(u: UserId): Cell
      reads this`queue, this`incidents, repository, store
    {
      Cell(Lookup(repository.rows, u), Lookup(store.ledger, u), u in store.buyers, Lookup(queue, u), IncidentsOf(u))
    }

    method Report(u: UserId, kind: IncidentKind)
      modifies this`incidents
      ensures CellOf(u) == Note(old(CellOf(u)), kind)
      ensures forall v :: v != u ==> CellOf(v) == old(CellOf(v))
    {
      incidents := incidents[u := IncidentsOf(u) + {kind}];
    }

    method EnqueueLiveReservation(u: UserId, live: Entry) returns (coverage: Coverage)
      requires u !in queue
      modifies this`queue
      ensures queue == old(queue)[u := FreshJob(u, live)] && coverage == Enqueued
    {
      var payload := Payload(u, live.id, if live.Timed? then live.at else 0);
      var repaired := Job(PERSIST_ORDER_JOB_NAME, Some(payload), ORDERS_JOB_ATTEMPTS, 0, false, Waiting);
      queue := queue[u := repaired];
      coverage := Enqueued;
    }

    method EnsureLiveReservationQueued(u: UserId, live: Entry, durable: Option<Row>) returns (coverage: Coverage)
      modifies this`queue
      ensures (Lookup(queue, u), coverage) == EnsureQueued(u, old(Lookup(queue, u)), live, durable)
      ensures forall v :: v != u ==> Lookup(queue, v) == old(Lookup(queue, v))
    {
      if u !in queue {
        coverage := EnqueueLiveReservation(u, live);
        return;
      }
      var current := queue[u];
      if !WellFormed(u, current) {
        return RetainedJob;
      }
      var identity := current.data.value.id;
      if identity == live.id {
        if LiveState(current.state) {
          return AlreadyCovered;
        }
        if durable.Some? && durable.value.id == live.id && durable.value.status == Persisted {
          return DurablySatisfied;
        }
        if current.state != Completed {
          return RetainedJob;
        }
        queue := queue - {u};
        coverage := EnqueueLiveReservation(u, live);
        return;
      }
      if current.state == Active {
        return RetainedJob;
      }
      if current.state == OtherState || durable.None? || durable.value.id != identity {
        return RetainedJob;
      }
      queue := queue - {u};
      coverage := EnqueueLiveReservation(u, live);
    }

    /** Ensures coverage and records a retained collision, as most callers do. */
    method CoverOrReport(u: UserId, live: Entry, durable: Option<Row>)
      requires durable == Lookup(repository.rows, u)
      modifies this`queue, this`incidents
      ensures CellOf(u) == Cover(u, old(CellOf(u)), live)
      ensures forall v :: v != u ==> CellOf(v) == old(CellOf(v))
    {
      var coverage := EnsureLiveReservationQueued(u, live, durable);
      if coverage == RetainedJob {
        Report(u, RetainedCollision);
      }
    }

    method ApplyPersistedCandidate(u: UserId, row: Row) returns (ok: bool)
      requires Lookup(repository.rows, u) == Some(row) && row.status == Persisted
      modifies this`queue, this`incidents, store`ledger, store`buyers
      ensures ok <==> ApplyPersisted(u, old(CellOf(u))).Some?
      ensures ok ==> ApplyPersisted(u, old(CellOf(u))) == Some(CellOf(u))
      ensures forall v :: v != u ==> CellOf(v) == old(CellOf(v))
    {
      var code, current := store.CompareRestore(Payload(u, row.id, row.at));
      if current.Garbled? {
        return false;
      }
      if code != Scripts.Conflict {
        return true;
      }
      if current.Timed? {
        CoverOrReport(u, current, Some(row));
      }
      Report(u, PersistedConflict);
      ok := true;
    }

    method ApplyQueuedCandidate(p: Payload, durable: Option<Row>) returns (ok: bool)
      requires durable == Lookup(repository.rows, p.user)
      modifies this`incidents, store`ledger, store`buyers
      ensures ok <==> ApplyQueued(old(CellOf(p.user)), p).Some?
      ensures ok ==> ApplyQueued(old(CellOf(p.user)), p) == Some(CellOf(p.user))
      ensures forall v :: v != p.user ==> CellOf(v) == old(CellOf(v))
    {
      var code, current := store.CompareRestore(p);
      if current.Garbled? {
        return false;
      }
      if code != Scripts.Conflict {
        return true;
      }
      if durable.Some? && durable.value.status == Compensated && durable.value.id == p.id {
        return true;
      }
      Report(p.user, QueueConflict);
      ok := true;
    }

    method ResolveBuyerInspection(u: UserId, targeted: bool) returns (ok: bool)
      modifies this`queue, this`incidents, store`buyers
      ensures ok <==> ResolveInspection(u, old(CellOf(u)), targeted).Some?
      ensures ok ==> ResolveInspection(u, old(CellOf(u)), targeted) == Some(CellOf(u))
      ensures forall v :: v != u ==> CellOf(v) == old(CellOf(v))
      ensures store.ledger == old(store.ledger)
    {
      var inspection, stored := store.Inspect(u);
      if inspection == Scripts.Neither {
        return true;
      }
      if inspection == Scripts.BuyerOnly {
        return false;
      }
      var entry := stored.value;
      if entry.Garbled? {
        return false;
      }
      var coverage := EnsureLiveReservationQueued(u, entry, Lookup(repository.rows, u));
      assert forall v :: v != u ==> CellOf(v) == old(CellOf(v));
      if coverage == RetainedJob {
        if targeted {
          return false;
        }
        Report(u, RetainedCollision);
      }
      if inspection == Scripts.ReservationOnly {
        var _ := store.ReconcileMembership(u);
      }
      ok := true;
    }

    method AdjudicateBuyerOnly(u: UserId) returns (ok: bool)
      requires u in store.buyers && u !in store.ledger
      modifies this`queue, this`incidents, store`ledger, store`buyers
      ensures ok <==> BuyerPhase(u, old(CellOf(u))).Some?
      ensures ok ==> BuyerPhase(u, old(CellOf(u))) == Some(CellOf(u))
      ensures forall v :: v != u ==> CellOf(v) == old(CellOf(v))
    {
      var row := Lookup(repository.rows, u);
      var targeted := Lookup(queue, u);
      if targeted.Some? && !WellFormed(u, targeted.value) {
        return false;
      }
      var live := targeted.Some? && LiveState(targeted.value.state);
      var persisted := row.Some? && row.value.status == Persisted;
      if persisted && live && targeted.value.data.value.id != row.value.id {
        return false;
      }
      if persisted {
        ok := ApplyPersistedCandidate(u, row.value);
      } else if live {
        ok := ApplyQueuedCandidate(targeted.value.data.value, row);
      } else if row.Some? {
        var present := store.ReconcileMembership(u);
        ok := !present;
      } else {
        ok := false;
      }
      if ok {
        ok := ResolveBuyerInspection(u, true);
      }
    }

    /** A paged listing of keys that do not change meanwhile: every element exactly once. */
    method List(keys: set<UserId>) returns (page: seq<UserId>)
      ensures Distinct(page) && forall u :: u in page <==> u in keys
    {
      page := [];
      var rest := keys;
      while rest != {}
        invariant rest <= keys
        invariant Distinct(page) && forall u :: u in page <==> u in keys - rest
      {
        var u :| u in rest;
        assert u !in page;
        page := page + [u];
        rest := rest - {u};
      }
    }

    /** A cursor scan: every element at least once, in no particular order, perhaps repeatedly. */
    method Scan(keys: set<UserId>) returns (page: seq<UserId>)
      ensures forall u :: u in page <==> u in keys
    {
      page := List(keys);
    }

    /** Restores every persisted order that Redis has lost. */
    method RestorePersisted(orders: seq<UserId>, byUser: Table) returns (ok: bool)
      requires byUser == repository.rows && Distinct(orders) && forall u :: u in orders <==> u in byUser
      modifies this`queue, this`incidents, store`ledger, store`buyers
      ensures ok ==> forall u :: PersistedPhase(u, old(CellOf(u))) == Some(CellOf(u))
      ensures !ok ==> exists u :: PersistedPhase(u, old(CellOf(u))).None?
    {
      ghost var done := {};
      for i := 0 to |orders|
        invariant forall u :: u in done <==> u in orders[..i]
        invariant forall u :: Some(CellOf(u)) ==
                    if u in done then PersistedPhase(u, old(CellOf(u))) else Some(old(CellOf(u)))
      {
        var u := orders[i];
        assert u !in done;
        if byUser[u].status == Persisted {
          ok := ApplyPersistedCandidate(u, byUser[u]);
          if !ok {
            assert PersistedPhase(u, old(CellOf(u))).None?;
            return;
          }
        }
        done := done + {u};
      }
      forall u ensures PersistedPhase(u, old(CellOf(u))) == Some(CellOf(u)) {
        assert u !in done ==> old(CellOf(u)).row.None?;
      }
      ok := true;
    }

    /** Restores what queued jobs still promise; `seen` is the queue as it was scanned. */
    method RestoreQueued(jobs: seq<UserId>, seen: map<UserId, Job>, byUser: Table) returns (ok: bool)
      requires byUser == repository.rows && Distinct(jobs) && forall u :: u in jobs <==> u in seen
      modifies this`incidents, store`ledger, store`buyers
      ensures ok ==> forall u :: QueuePhase(u, old(CellOf(u)), Lookup(seen, u)) == Some(CellOf(u))
      ensures !ok ==> exists u :: QueuePhase(u, old(CellOf(u)), Lookup(seen, u)).None?
    {
      ghost var done := {};
      for i := 0 to |jobs|
        invariant forall u :: u in done <==> u in jobs[..i]
        invariant forall u :: Some(CellOf(u)) ==
                    if u in done then QueuePhase(u, old(CellOf(u)), Lookup(seen, u)) else Some(old(CellOf(u)))
      {
        var u := jobs[i];
        assert u !in done;
        var job := seen[u];
        var scanned := WellFormed(u, job) && (job.state.Failed? ==> Terminal(job));
        if scanned && LiveState(job.state) {
          var p := job.data.value;
          var settled := u in byUser && byUser[u].status == Compensated && byUser[u].id == p.id;
          if !settled {
            ok := ApplyQueuedCandidate(p, Lookup(byUser, u));
            if !ok {
              assert QueuePhase(u, old(CellOf(u)), Lookup(seen, u)).None?;
              return;
            }
          }
        }
        done := done + {u};
      }
      forall u ensures QueuePhase(u, old(CellOf(u)), Lookup(seen, u)) == Some(CellOf(u)) {
        assert u !in done ==> Lookup(seen, u).None?;
      }
      ok := true;
    }

    method CoverEntry(u: UserId, byUser: Table)
      requires byUser == repository.rows && u in store.ledger && !store.ledger[u].Garbled?
      modifies this`queue, this`incidents, store`buyers
      ensures LedgerPhase(u, old(CellOf(u))) == Some(CellOf(u))
      ensures forall v :: v != u ==> CellOf(v) == old(CellOf(v))
    {
      var entry := store.ledger[u];
      if u in byUser && byUser[u].status == Persisted && byUser[u].id == entry.id {
        var _ := store.ReconcileMembership(u);
        return;
      }
      CoverOrReport(u, entry, Lookup(byUser, u));
      var _ := store.ReconcileMembership(u);
    }

    /** Reads the whole ledger; a value that does not parse stops the pass. */
    method ScanLedger() returns (ok: bool, scanned: seq<UserId>)
      ensures forall u :: u in scanned <==> u in store.ledger
      ensures ok <==> forall u :: u in store.ledger ==> !store.ledger[u].Garbled?
    {
      scanned := Scan(store.ledger.Keys);
      ok := true;
      for i := 0 to |scanned|
        invariant ok <==> forall u :: u in scanned[..i] ==> !store.ledger[u].Garbled?
      {
        ok := ok && !store.ledger[scanned[i]].Garbled?;
      }
    }

    /** Makes sure that every live reservation without its own persisted row is queued. */
    method CoverLedger(scanned: seq<UserId>, byUser: Table)
      requires byUser == repository.rows && forall u :: u in scanned <==> u in store.ledger
      requires forall u :: u in store.ledger ==> !store.ledger[u].Garbled?
      modifies this`queue, this`incidents, store`buyers
      ensures forall u :: LedgerPhase(u, old(CellOf(u))) == Some(CellOf(u))
    {
      ghost var done := {};
      for i := 0 to |scanned|
        invariant forall u :: u in done <==> u in scanned[..i]
        invariant forall u :: Some(CellOf(u)) ==
                    if u in done then LedgerPhase(u, old(CellOf(u))) else Some(old(CellOf(u)))
      {
        var u := scanned[i];
        if u in done {
          LedgerPhaseIdempotent(u, old(CellOf(u)));
        }
        CoverEntry(u, byUser);
        done := done + {u};
      }
    }

    method CheckBuyer(u: UserId) returns (ok: bool)
      modifies this`queue, this`incidents, store`ledger, store`buyers
      ensures ok <==> BuyerPhase(u, old(CellOf(u))).Some?
      ensures ok ==> BuyerPhase(u, old(CellOf(u))) == Some(CellOf(u))
      ensures forall v :: v != u ==> CellOf(v) == old(CellOf(v))
    {
      if u in store.ledger {
        return true;
      }
      var inspection, _ := store.Inspect(u);
      if inspection != Scripts.BuyerOnly {
        ok := ResolveBuyerInspection(u, false);
      } else {
        ok := AdjudicateBuyerOnly(u);
      }
    }

    /** Finds the true identity of every buyer without a ledger entry, or gives up on the pass. */
    method CheckBuyers(scanned: seq<UserId>) returns (ok: bool)
      requires forall u :: u in scanned <==> u in store.buyers
      modifies this`queue, this`incidents, store`ledger, store`buyers
      ensures ok ==> forall u :: BuyerPhase(u, old(CellOf(u))) == Some(CellOf(u))
      ensures !ok ==> exists u :: BuyerPhase(u, old(CellOf(u))).None?
    {
      ghost var done := {};
      for i := 0 to |scanned|
        invariant forall u :: u in done <==> u in scanned[..i]
        invariant forall u :: Some(CellOf(u)) ==
                    if u in done then BuyerPhase(u, old(CellOf(u))) else Some(old(CellOf(u)))
      {
        var u := scanned[i];
        if u in done {
          BuyerPhaseIdempotent(u, old(CellOf(u)));
        }
        ok := CheckBuyer(u);
        if !ok {
          return;
        }
        done := done + {u};
      }
      ok := true;
    }

    /** The four scans of `runDiff`, in order. */
    method RepairCells() returns (ok: bool)
      modifies this`queue, this`incidents, store`ledger, store`buyers
      ensures ok ==> forall u :: DiffCell(u, old(CellOf(u))) == Some(CellOf(u))
      ensures !ok ==> exists u :: DiffCell(u, old(CellOf(u))).None?
    {
      var byUser := repository.rows;
      var seen := queue;
      var orders := List(byUser.Keys);
      var jobs := List(seen.Keys);
      ok := RestorePersisted(orders, byUser);
      if !ok {
        ghost var u :| PersistedPhase(u, old(CellOf(u))).None?;
        assert DiffCell(u, old(CellOf(u))).None?;
        return;
      }
      label AfterOrders:
      ok := RestoreQueued(jobs, seen, byUser);
      if !ok {
        ghost var u :| QueuePhase(u, old@AfterOrders(CellOf(u)), Lookup(seen, u)).None?;
        assert DiffCell(u, old(CellOf(u))).None?;
        return;
      }
      label AfterJobs:
      var scanned: seq<UserId>;
      ok, scanned := ScanLedger();
      if !ok {
        ghost var u :| u in store.ledger && store.ledger[u].Garbled?;
        assert LedgerPhase(u, CellOf(u)).None?;
        assert DiffCell(u, old(CellOf(u))).None?;
        return;
      }
      CoverLedger(scanned, byUser);
      label AfterLedger:
      var buyers := Scan(store.buyers);
      ok := CheckBuyers(buyers);
      if !ok {
        ghost var u :| BuyerPhase(u, old@AfterLedger(CellOf(u))).None?;
        assert DiffCell(u, old(CellOf(u))).None?;
        return;
      }
    }

    /** Redis is balanced and no user is damaged. */
    ghost predicate AllSound()
      reads this, repository, store
    {
      Scripts.Balanced(store.State()) && forall u :: Sound(u, CellOf(u))
    }

    /** On sound users the four scans change nothing in Redis. */
    twostate lemma SoundIsLeftAlone(ok: bool)
      requires old(AllSound())
      requires ok ==> forall u :: DiffCell(u, old(CellOf(u))) == Some(CellOf(u))
      requires !ok ==> exists u :: DiffCell(u, old(CellOf(u))).None?
      ensures ok && store.ledger == old(store.ledger) && store.buyers == old(store.buyers)
    {
      forall u ensures DiffCell(u, old(CellOf(u))).Some? {
        DiffDoesNoHarm(u, old(CellOf(u)));
      }
      forall u
        ensures Lookup(store.ledger, u) == old(Lookup(store.ledger, u))
        ensures u in store.buyers <==> u in old(store.buyers)
      {
        DiffDoesNoHarm(u, old(CellOf(u)));
        assert CellOf(u).entry == old(CellOf(u)).entry && CellOf(u).member == old(CellOf(u)).member;
      }
      forall u ensures u in store.ledger <==> u in old(store.ledger) {
        assert Lookup(store.ledger, u) == old(Lookup(store.ledger, u));
      }
      forall u | u in store.ledger ensures store.ledger[u] == old(store.ledger)[u] {
        assert Lookup(store.ledger, u) == old(Lookup(store.ledger, u));
      }
    }

    /** No user's cell makes the scans throw. */
    twostate predicate Scans()
      reads this`queue, this`incidents, repository, store
    {
      forall u :: DiffCell(u, old(CellOf(u)).(incidents := {})).Some?
    }

    /**
     * `runDiff` up to and including its stock step. It succeeds exactly when no user's
     * cell makes it throw and the ledger fits the configured total. Every cell is then what
     * `DiffCell` says, even if the stock step refuses; the stock changes only on success.
     */
    method Diff() returns (ok: bool)
      modifies this`queue, this`incidents, store`ledger, store`buyers, store`stock
      ensures ok <==> Scans() && Scripts.ReconcileStock(store.State()).0 == Scripts.StockReconciled
      ensures Scans() ==> forall u :: DiffCell(u, old(CellOf(u)).(incidents := {})) == Some(CellOf(u))
      ensures ok ==> Scripts.ReconcileStock(store.State()).1 == store.State()
      ensures !ok ==> store.stock == old(store.stock)
      ensures old(AllSound()) ==> ok && store.State() == old(store.State())
    {
      ghost var sound := AllSound();
      incidents := map[];
      label Start:
      assert forall u :: CellOf(u) == old(CellOf(u)).(incidents := {});
      ok := RepairCells();
      if sound {
        SoundIsLeftAlone@Start(ok);
      }
      if ok {
        assert forall u :: DiffCell(u, old(CellOf(u)).(incidents := {})) == Some(CellOf(u));
        var code, _, _, _, _ := store.ReconcileStock();
        ok := code == Scripts.StockReconciled;
      } else {
        ghost var u :| DiffCell(u, old@Start(CellOf(u))).None?;
        assert DiffCell(u, old(CellOf(u)).(incidents := {})).None?;
      }
    }

    /** Resolves a payload and leaves its job where it is. */
    method Resolve(p: Payload)
      requires repository.store == store
      modifies repository, store
      ensures CellOf(p.user) == ResolveCell(old(CellOf(p.user)), p)
      ensures forall v :: v != p.user ==> CellOf(v) == old(CellOf(v))
      ensures old(Scripts.Balanced(store.State())) ==> Scripts.Balanced(store.State())
    {
      ghost var before, rows := store.State(), repository.rows;
      if Scripts.Balanced(before) {
        ResolveKeepsBalance(before, rows, p);
      }
      var _ := repository.ResolveFailed(p);
      forall v
        ensures v == p.user ==> CellOf(v) == ResolveCell(old(CellOf(v)), p)
        ensures v != p.user ==> CellOf(v) == old(CellOf(v))
      {
        ResolveIsLocal(before, rows, queue, IncidentsOf(v), p, v);
        assert CellOf(v) == View(store.State(), repository.rows, queue, IncidentsOf(v), v);
        assert old(CellOf(v)) == View(before, rows, queue, IncidentsOf(v), v);
      }
    }

    method ResolveJob(u: UserId)
      requires repository.store == store && u in queue && WellFormed(u, queue[u])
      modifies this`queue, repository, store
      ensures CellOf(u) == SweepCell(old(CellOf(u)), old(queue[u]).data.value)
      ensures forall v :: v != u ==> CellOf(v) == old(CellOf(v))
      ensures queue == old(queue) - {u}
      ensures old(Scripts.Balanced(store.State())) ==> Scripts.Balanced(store.State())
    {
      Resolve(queue[u].data.value);
      queue := queue - {u};
    }

    /** Compensates a payload in a transaction that is then rolled back. */
    method ResolveHalfway(p: Payload)
      requires repository.store == store
      modifies store
      ensures CellOf(p.user) == FaultCell(old(CellOf(p.user)), p, AfterRelease)
      ensures forall v :: v != p.user ==> CellOf(v) == old(CellOf(v))
      ensures old(Scripts.Balanced(store.State())) ==> Scripts.Balanced(store.State())
    {
      ghost var before := store.State();
      if Scripts.Balanced(before) {
        ReleaseKeepsBalance(before, p);
      }
      repository.ResolveRolledBack(p);
      forall v
        ensures v == p.user ==> CellOf(v) == FaultCell(old(CellOf(v)), p, AfterRelease)
        ensures v != p.user ==> CellOf(v) == old(CellOf(v))
      {
        ReleaseIsLocal(before, repository.rows, queue, IncidentsOf(v), p, v);
        assert CellOf(v) == View(store.State(), repository.rows, queue, IncidentsOf(v), v);
        assert old(CellOf(v)) == View(before, repository.rows, queue, IncidentsOf(v), v);
      }
    }

    /** A resolution that an outside error strikes; the job stays. */
    method ResolveFaulted(u: UserId, fault: Fault)
      requires repository.store == store && u in queue && WellFormed(u, queue[u])
      modifies repository, store
      ensures CellOf(u) == FaultCell(old(CellOf(u)), queue[u].data.value, fault)
      ensures forall v :: v != u ==> CellOf(v) == old(CellOf(v))
      ensures old(Scripts.Balanced(store.State())) ==> Scripts.Balanced(store.State())
    {
      match fault
      case BeforeRelease =>
      case AfterRelease => ResolveHalfway(queue[u].data.value);
      case AtRemoval => Resolve(queue[u].data.value);
    }

    /** One entry of the window: resolve and remove it, or say why not. */
    method SweepOne(u: UserId, faults: Faults) returns (removed: bool, unsafe: bool)
      requires repository.store == store && u in queue && queue[u].state.Failed?
      modifies this`queue, repository, store
      ensures unsafe <==> !Resolvable(u, old(queue[u]))
      ensures removed <==> !unsafe && u !in faults
      ensures CellOf(u) == SweptCell(u, old(CellOf(u)), faults)
      ensures forall v :: v != u ==> CellOf(v) == old(CellOf(v))
      ensures old(Scripts.Balanced(store.State())) ==> Scripts.Balanced(store.State())
    {
      removed, unsafe := false, !WellFormed(u, queue[u]) || !Terminal(queue[u]);
      if !unsafe {
        if u in faults {
          ResolveFaulted(u, faults[u]);
        } else {
          ResolveJob(u);
          removed := true;
        }
      }
    }

    /**
     * The loop of `sweepFailed` over its window: every resolvable job is resolved and
     * removed unless an error strikes, everything else is left alone.
     */
    method SweepWindow(window: seq<UserId>, faults: Faults)
      returns (removedCount: nat, unsafeCount: nat, errorCount: nat)
      requires repository.store == store && Distinct(window)
      requires forall u :: u in window ==> u in queue && queue[u].state.Failed?
      modifies this`queue, repository, store
      ensures removedCount == Count(window, RemovableJobs(old(queue), faults.Keys))
      ensures unsafeCount == Count(window, UnsafeJobs(old(queue)))
      ensures errorCount == Count(window, ErrorJobs(old(queue), faults.Keys))
      ensures forall u :: CellOf(u) == AfterSweep(u, old(CellOf(u)), window, faults)
      ensures old(Scripts.Balanced(store.State())) ==> Scripts.Balanced(store.State())
    {
      removedCount, unsafeCount, errorCount := 0, 0, 0;
      ghost var jobs := queue;
      ghost var removable, unsafes, errors :=
        RemovableJobs(jobs, faults.Keys), UnsafeJobs(jobs), ErrorJobs(jobs, faults.Keys);
      ghost var balanced := Scripts.Balanced(store.State());
      ghost var done := {};
      for i := 0 to |window|
        invariant forall u :: u in done <==> u in window[..i]
        invariant removedCount == Count(window[..i], removable)
        invariant unsafeCount == Count(window[..i], unsafes)
        invariant errorCount == Count(window[..i], errors)
        invariant forall u :: CellOf(u) == if u in done then SweptCell(u, old(CellOf(u)), faults) else old(CellOf(u))
        invariant balanced ==> Scripts.Balanced(store.State())
      {
        var u := window[i];
        assert u !in done;
        assert CellOf(u).job == Lookup(queue, u) == Lookup(jobs, u);
        CountStep(window, removable, i);
        CountStep(window, unsafes, i);
        CountStep(window, errors, i);
        var removed, unsafe := SweepOne(u, faults);
        done := done + {u};
        if removed {
          removedCount := removedCount + 1;
        } else if unsafe {
          unsafeCount := unsafeCount + 1;
        } else {
          errorCount := errorCount + 1;
        }
      }
      assert window[..|window|] == window;
    }

    /** The window of a sweep and the offset it leaves. */
    method SweepListed(failed: seq<UserId>, scanCount: nat, faults: Faults)
      returns (unsafeCount: nat, errorCount: nat)
      requires repository.store == store && scanCount > 0 && failed != [] && Lists(failed, queue)
      modifies this`queue, this`failedScanOffset, repository, store
      ensures var window := Window(failed, old(failedScanOffset), scanCount);
              && errorCount == Count(window, ErrorJobs(old(queue), faults.Keys))
              && unsafeCount == Count(window, UnsafeJobs(old(queue)))
              && (forall u :: CellOf(u) == AfterSweep(u, old(CellOf(u)), window, faults))
      ensures failedScanOffset
           == Sweep(failed, old(failedScanOffset), scanCount, RemovableJobs(old(queue), faults.Keys)).1
      ensures old(Scripts.Balanced(store.State())) ==> Scripts.Balanced(store.State())
    {
      var start := failedScanOffset % |failed|;
      var window := failed[start..WindowEnd(start, scanCount, |failed|)];
      SweepInCode(failed, failedScanOffset, scanCount, RemovableJobs(queue, faults.Keys));
      var removedCount: nat;
      removedCount, unsafeCount, errorCount := SweepWindow(window, faults);
      failedScanOffset := NextOffset(start, |window|, removedCount, |failed| - removedCount);
    }

    /** `sweepFailed` over the failed jobs as listed; it throws when a resolution failed. */
    method SweepFailed(failed: seq<UserId>, scanCount: nat, faults: Faults)
      returns (ok: bool, retainedUnsafe: nat)
      requires repository.store == store && scanCount > 0 && Lists(failed, queue)
      modifies this`queue, this`failedScanOffset, repository, store
      ensures var window := SweptWindow(failed, old(failedScanOffset), scanCount);
              && (ok <==> Count(window, ErrorJobs(old(queue), faults.Keys)) == 0)
              && retainedUnsafe == Count(window, UnsafeJobs(old(queue)))
              && forall u :: CellOf(u) == AfterSweep(u, old(CellOf(u)), window, faults)
      ensures var swept := Sweep(failed, old(failedScanOffset), scanCount, RemovableJobs(old(queue), faults.Keys));
              && failedScanOffset == swept.1
              && forall u :: u in swept.0 <==> u in queue && queue[u].state.Failed?
      ensures forall u :: CellOf(u) != old(CellOf(u)) ==> u in failed && Meaning.FailedForGood(u, old(CellOf(u)).job)
      ensures retainedUnsafe == Count(SweptWindow(failed, old(failedScanOffset), scanCount),
                                      set u | u in old(queue) && !Meaning.FailedForGood(u, Some(old(queue)[u])))
      ensures old(Scripts.Balanced(store.State())) ==> Scripts.Balanced(store.State())
    {
      UnsafeJobsAre(queue);
      if |failed| == 0 {
        failedScanOffset := 0;
        return true, 0;
      }
      ghost var offset, jobs := failedScanOffset, queue;
      var unsafeCount, errorCount := SweepListed(failed, scanCount, faults);
      SweepInCode(failed, offset, scanCount, RemovableJobs(jobs, faults.Keys));
      forall u
        ensures CellOf(u) != old(CellOf(u)) ==> u in failed && Meaning.FailedForGood(u, old(CellOf(u)).job)
        ensures Lookup(queue, u) ==
                if u in Window(failed, offset, scanCount) && u in RemovableJobs(jobs, faults.Keys) then None
                else Lookup(jobs, u)
      {
        SweptJob(u, old(CellOf(u)), Window(failed, offset, scanCount), faults);
        SweptMeans(u, old(CellOf(u)), Window(failed, offset, scanCount), faults);
        assert CellOf(u).job == Lookup(queue, u) && old(CellOf(u)).job == Lookup(jobs, u);
      }
      SweptQueue(failed, offset, scanCount, RemovableJobs(jobs, faults.Keys), jobs, queue);
      ok, retainedUnsafe := errorCount == 0, unsafeCount;
    }

    /** One sweep of the timer, on the list that the sweeps before it have left. */
    method SweepAgain(failed: seq<UserId>, scanCount: nat, ghost removable: set<UserId>)
      returns (left: seq<UserId>)
      requires repository.store == store && scanCount > 0 && Lists(failed, queue)
      requires forall u :: u in failed ==> (u in removable <==> Resolvable(u, queue[u]))
      modifies this`queue, this`failedScanOffset, repository, store
      ensures Lists(left, queue)
      ensures (left, failedScanOffset) == Sweep(failed, old(failedScanOffset), scanCount, removable)
      ensures forall u :: CellOf(u) ==
                if u in failed && u !in left then SweptCell(u, old(CellOf(u)), map[]) else old(CellOf(u))
      ensures old(Scripts.Balanced(store.State())) ==> Scripts.Balanced(store.State())
    {
      ghost var offset, jobs := failedScanOffset, queue;
      var none: Faults := map[];
      assert none.Keys == {};
      SameSweep(failed, offset, scanCount, RemovableJobs(jobs, {}), removable);
      SweepDistinct(failed, offset, scanCount, removable);
      left := Sweep(failed, failedScanOffset, scanCount, RemovableJobs(queue, {})).0;
      var _, _ := SweepFailed(failed, scanCount, none);
      forall u
        ensures CellOf(u) ==
                if u in failed && u !in left then SweptCell(u, old(CellOf(u)), map[]) else old(CellOf(u))
      {
        assert old(CellOf(u)).job == Lookup(jobs, u);
        SweptOffList(failed, offset, scanCount, removable, u, old(CellOf(u)));
      }
    }

    /** So many sweeps of the timer in a row. */
    method SweepTicks(failed: seq<UserId>, scanCount: nat, ticks: nat) returns (left: seq<UserId>)
      requires repository.store == store && scanCount > 0 && Lists(failed, queue)
      modifies this`queue, this`failedScanOffset, repository, store
      ensures Lists(left, queue)
      ensures left == After(failed, old(failedScanOffset), scanCount, RemovableJobs(old(queue), {}), ticks).0
      ensures forall u :: CellOf(u) ==
                if u in failed && u !in left then SweptCell(u, old(CellOf(u)), map[]) else old(CellOf(u))
    {
      ghost var jobs, offset, removable := queue, failedScanOffset, RemovableJobs(queue, {});
      left := failed;
      for i := 0 to ticks
        invariant Lists(left, queue)
        invariant (left, failedScanOffset) == After(failed, offset, scanCount, removable, i)
        invariant forall u :: u in left ==> u in failed
        invariant forall u :: CellOf(u) ==
                    if u in failed && u !in left then SweptCell(u, old(CellOf(u)), map[]) else old(CellOf(u))
      {
        AfterJoins(failed, offset, scanCount, removable, i, 1);
        forall u | u in left ensures u in removable <==> Resolvable(u, queue[u]) {
          assert CellOf(u).job == Lookup(queue, u) && old(CellOf(u)).job == Lookup(jobs, u);
        }
        left := SweepAgain(left, scanCount, removable);
      }
    }

    /**
     * The sweeps of the timer, with no new failures and no outside errors: after enough of
     * them exactly the jobs that have not failed for good are left, and every other one is
     * resolved.
     */
    method SweepOnTimer(failed: seq<UserId>, scanCount: nat, ticks: nat) returns (left: seq<UserId>)
      requires repository.store == store && scanCount > 0 && Lists(failed, queue)
      modifies this`queue, this`failedScanOffset, repository, store
      ensures Lists(left, queue)
      ensures left == After(failed, old(failedScanOffset), scanCount, RemovableJobs(old(queue), {}), ticks).0
      ensures forall u :: CellOf(u) ==
                if u in failed && u !in left then SweptCell(u, old(CellOf(u)), map[]) else old(CellOf(u))
      ensures ticks >= SweepsNeeded(failed, scanCount, old(queue)) ==>
                forall u :: u in left <==> u in failed && !Meaning.FailedForGood(u, Lookup(old(queue), u))
      ensures forall u :: CellOf(u) != old(CellOf(u)) ==> u in failed && Meaning.FailedForGood(u, old(CellOf(u)).job)
    {
      ghost var jobs, offset := queue, failedScanOffset;
      left := SweepTicks(failed, scanCount, ticks);
      if ticks >= SweepsNeeded(failed, scanCount, jobs) {
        OnlyUnsafeLeft(failed, offset, scanCount, jobs, ticks);
        UnsafeJobsAre(jobs);
      }
      forall u ensures CellOf(u) != old(CellOf(u)) ==> u in failed && Meaning.FailedForGood(u, old(CellOf(u)).job) {
        SweptMeans(u, old(CellOf(u)), [u], map[]);
      }
    }

    /** Redis is balanced and every user is repaired, up to what the incidents put on record. */
    ghost predicate AllRepaired()
      reads this, repository, store
    {
      Scripts.Balanced(store.State()) && forall u :: Repaired(u, CellOf(u))
    }

    twostate lemma DiffMeansRepaired()
      requires forall u :: DiffCell(u, old(CellOf(u)).(incidents := {})) == Some(CellOf(u))
      requires Scripts.ReconcileStock(store.State()) == (Scripts.StockReconciled, store.State())
      ensures AllRepaired()
    {
      forall u ensures Repaired(u, CellOf(u)) {
        DiffRepairs(u, old(CellOf(u)).(incidents := {}));
      }
      forall u ensures u in store.buyers <==> u in store.ledger {
        assert Repaired(u, CellOf(u));
      }
      assert store.buyers == store.ledger.Keys;
    }

    /** The sweep at the end of a pass, over the failed jobs the diff has left. */
    method SweepAfterDiff(scanCount: nat, faults: Faults)
      returns (ok: bool, retainedUnsafe: nat, ghost failed: seq<UserId>)
      requires repository.store == store && scanCount > 0 && AllRepaired()
      modifies this`queue, this`failedScanOffset, repository, store
      ensures AllRepaired() && Lists(failed, old(queue))
      ensures var window := SweptWindow(failed, old(failedScanOffset), scanCount);
              && (forall u :: CellOf(u) == AfterSweep(u, old(CellOf(u)), window, faults))
              && (forall u :: u in failed <==> HasFailedJob(old(CellOf(u))))
              && (ok <==> forall u :: u in window ==> !Struck(u, old(CellOf(u)), faults))
              && (retainedUnsafe > 0 <==> exists u :: u in window && Untouchable(u, old(CellOf(u))))
      ensures forall u :: CellOf(u) != old(CellOf(u)) ==> u in failed && Meaning.FailedForGood(u, old(CellOf(u)).job)
      ensures failedScanOffset
           == Sweep(failed, old(failedScanOffset), scanCount, RemovableJobs(old(queue), faults.Keys)).1
    {
      var listed := List(set u | u in queue && queue[u].state.Failed?);
      failed := listed;
      ghost var offset, jobs := failedScanOffset, queue;
      ok, retainedUnsafe := SweepFailed(listed, scanCount, faults);
      CountIsZeroIff(SweptWindow(failed, offset, scanCount), ErrorJobs(jobs, faults.Keys));
      CountIsZeroIff(SweptWindow(failed, offset, scanCount), UnsafeJobs(jobs));
      assert forall u :: old(CellOf(u)).job == Lookup(jobs, u);
      forall u ensures Repaired(u, CellOf(u)) {
        assert old(Repaired(u, CellOf(u)));
        SweepKeepsRepaired(u, old(CellOf(u)), faults);
      }
    }

    /** A scanned queue entry that degrades the pass. */
    predicate QueueIssue(u: UserId)
      reads this
    {
      u in queue && (!WellFormed(u, queue[u]) || (queue[u].state.Failed? && !Terminal(queue[u])))
    }

    /** Whether the scan of the queue found anything to report. */
    method ScanIssues() returns (issues: bool)
      ensures issues <==> exists u :: u in queue && Meaning.IsIssue(u, Some(queue[u]))
    {
      issues := exists u | u in queue :: QueueIssue(u);
      assert forall u :: u in queue ==> (QueueIssue(u) <==> Meaning.IsIssue(u, Some(queue[u])));
    }

    /**
     * The whole of `runDiff`. Once the stock step has passed, the sale is repaired even if
     * the sweep then throws, and every user is where the scans and the sweep's window put
     * them; from a sound start the pass always gets that far.
     */
    method RunDiff(scanCount: nat, faults: Faults)
      returns (pastStock: bool, ok: bool, degraded: bool, retainedUnsafe: nat, ghost failed: seq<UserId>)
      requires repository.store == store && scanCount > 0
      modifies this`queue, this`incidents, this`failedScanOffset, repository, store
      ensures pastStock ==> AllRepaired()
      ensures old(AllSound()) ==> pastStock
      ensures ok ==> pastStock
      ensures !pastStock && Scans() ==>
                && Scripts.ReconcileStock(store.State()).0 != Scripts.StockReconciled
                && (forall u :: DiffCell(u, old(CellOf(u)).(incidents := {})) == Some(CellOf(u)))
                && store.stock == old(store.stock)
      ensures pastStock ==>
                var window := SweptWindow(failed, old(failedScanOffset), scanCount);
                && (forall u :: Some(CellOf(u)) == AfterPass(u, old(CellOf(u)), window, faults))
                && (forall u :: u in failed <==> FailedAfterDiff(u, old(CellOf(u))))
                && (forall u :: SweptAfterDiff(u, old(CellOf(u)), CellOf(u)) ==>
                      u in failed && Meaning.FailedForGood(u, Meaning.JobAfter(u, old(CellOf(u)))))
                && (ok <==> forall u :: u in window ==> !StruckAfterDiff(u, old(CellOf(u)), faults))
                && (retainedUnsafe > 0 <==> exists u :: u in window && UntouchableAfterDiff(u, old(CellOf(u))))
      ensures ok ==>
                (degraded <==>
                  || retainedUnsafe > 0
                  || (exists u :: u in incidents && incidents[u] != {})
                  || (exists u :: u in old(queue) && Meaning.IsIssue(u, Some(old(queue)[u]))))
    {
      failed := [];
      var issues := ScanIssues();
      pastStock := Diff();
      if !pastStock {
        return false, false, true, 0, [];
      }
      DiffMeansRepaired();
      label Scanned:
      ok, retainedUnsafe, failed := SweepAfterDiff(scanCount, faults);
      forall u
        ensures SweptAfterDiff(u, old(CellOf(u)), CellOf(u)) ==>
                  u in failed && Meaning.FailedForGood(u, Meaning.JobAfter(u, old(CellOf(u))))
      {
        SweptAfterDiffMeans(u, old(CellOf(u)), old@Scanned(CellOf(u)), CellOf(u));
      }
      var conflicts := exists u | u in incidents :: incidents[u] != {};
      degraded := issues || retainedUnsafe > 0 || conflicts;
    }
  }
}

// What the failed-job sweep does to one user whose terminal job it resolves.
module SweepSpec {
  import opened Types
  import opened RecoverySpec
  import Meaning = RecoveryMeaning
  import Scripts = SaleScripts
  import SaleRefinement
  import OrderRepository
  import opened FailedSweep

  /** Jobs the sweep may resolve and remove. */
  predicate Resolvable(u: UserId, j: Job) {
    j.state.Failed? && WellFormed(u, j) && Terminal(j)
  }

  /** A sweep may resolve exactly the jobs that have failed for good. */
  lemma ResolvableIff(u: UserId, j: Job)
    ensures Resolvable(u, j) <==> Meaning.FailedForGood(u, Some(j))
  {
  }

  /** The compensation of one payload, seen from its user's cell. */
  function ReleaseCell(c: Cell, p: Payload): Cell {
    if c.entry.Some? && c.entry.value.id == p.id then c.(entry := None, member := false) else c
  }

  /** `resolveFailed` seen from its user's cell. */
  function ResolveCell(c: Cell, p: Payload): Cell {
    if HasRow(c, p.id, Persisted) then c
    else if IsPersisted(c) || HasRow(c, p.id, Compensated) then ReleaseCell(c, p)
    else ReleaseCell(c, p).(row := Some(Row(p.id, Compensated, p.at)))
  }

  function SweepCell(c: Cell, p: Payload): Cell {
    ResolveCell(c, p).(job := None)
  }

  /**
   * Where an outside error strikes a resolution: before it has any effect, after its
   * compensation (the transaction is rolled back), or after its commit, when the job is removed.
   */
  datatype Fault = BeforeRelease | AfterRelease | AtRemoval

  type Faults = map<UserId, Fault>

  /** The user whose resolution was struck; the job stays. */
  function FaultCell(c: Cell, p: Payload, f: Fault): Cell {
    match f
    case BeforeRelease => c
    case AfterRelease => if HasRow(c, p.id, Persisted) then c else ReleaseCell(c, p)
    case AtRemoval => ResolveCell(c, p)
  }

  /** The user after the sweep has looked at its failed job. */
  function SweptCell(u: UserId, c: Cell, faults: Faults): Cell {
    if c.job.None? || !Resolvable(u, c.job.value) then c
    else if u in faults then FaultCell(c, c.job.value.data.value, faults[u])
    else SweepCell(c, c.job.value.data.value)
  }

  /** The window a sweep looks at. */
  function SweptWindow(failed: seq<UserId>, offset: nat, scanCount: nat): seq<UserId> {
    if failed == [] then [] else Window(failed, offset, scanCount)
  }

  function AfterSweep(u: UserId, c: Cell, window: seq<UserId>, faults: Faults): Cell {
    if u in window then SweptCell(u, c, faults) else c
  }

  /** The user after the scans and the sweep of one pass; `None` when the scans throw. */
  function AfterPass(u: UserId, c: Cell, window: seq<UserId>, faults: Faults): Option<Cell> {
    match DiffCell(u, c.(incidents := {}))
    case None => None
    case Some(d) => Some(AfterSweep(u, d, window, faults))
  }

  predicate HasFailedJob(c: Cell) {
    c.job.Some? && c.job.value.state.Failed?
  }

  /** The user's failed job can be resolved, but an outside error strikes its resolution. */
  predicate Struck(u: UserId, c: Cell, faults: Faults) {
    c.job.Some? && Resolvable(u, c.job.value) && u in faults
  }

  /** The user is not where the scans alone would have put it. */
  predicate SweptAfterDiff(u: UserId, before: Cell, after: Cell) {
    DiffCell(u, before.(incidents := {})) != Some(after)
  }

  predicate FailedAfterDiff(u: UserId, c: Cell) {
    var d := DiffCell(u, c.(incidents := {}));
    d.Some? && HasFailedJob(d.value)
  }

  /** The user's failed job is one that no sweep may touch. */
  predicate Untouchable(u: UserId, c: Cell) {
    HasFailedJob(c) && !Resolvable(u, c.job.value)
  }

  predicate UntouchableAfterDiff(u: UserId, c: Cell) {
    var d := DiffCell(u, c.(incidents := {}));
    d.Some? && Untouchable(u, d.value)
  }

  predicate StruckAfterDiff(u: UserId, c: Cell, faults: Faults) {
    var d := DiffCell(u, c.(incidents := {}));
    d.Some? && Struck(u, d.value, faults)
  }

  /** The stores as one user sees them. */
  function View(r: Redis, rows: Table, queue: map<UserId, Job>, incidents: set<IncidentKind>, u: UserId): Cell {
    Cell(Lookup(rows, u), Lookup(r.ledger, u), u in r.buyers, Lookup(queue, u), incidents)
  }

  /** Resolving one payload touches one user. */
  lemma ResolveIsLocal(
      r: Redis, rows: Table, queue: map<UserId, Job>, incidents: set<IncidentKind>, p: Payload, u: UserId)
    ensures var after := OrderRepository.ResolveSpec(r, rows, p);
            var c := View(r, rows, queue, incidents, u);
            View(after.1, after.2, queue, incidents, u) == if u == p.user then ResolveCell(c, p) else c
  {
  }

  /** So does compensating it. */
  lemma ReleaseIsLocal(
      r: Redis, rows: Table, queue: map<UserId, Job>, incidents: set<IncidentKind>, p: Payload, u: UserId)
    ensures var r' := Scripts.Compensate(r, p.user, p.id).1;
            var c := View(r, rows, queue, incidents, u);
            View(r', rows, queue, incidents, u) == if u == p.user then ReleaseCell(c, p) else c
  {
  }

  lemma ReleaseKeepsBalance(r: Redis, p: Payload)
    requires Scripts.Balanced(r)
    ensures Scripts.Balanced(Scripts.Compensate(r, p.user, p.id).1)
  {
    if p.user in r.ledger {
      SaleRefinement.RemovalCount(r.ledger, p.user);
    }
  }

  lemma ResolveKeepsBalance(r: Redis, rows: Table, p: Payload)
    requires Scripts.Balanced(r)
    ensures Scripts.Balanced(OrderRepository.ResolveSpec(r, rows, p).1)
  {
    ReleaseKeepsBalance(r, p);
  }

  /**
   * Resolving a job keeps its user repaired although the job is gone, and so does an error
   * wherever it strikes.
   */
  lemma SweepKeepsRepaired(u: UserId, c: Cell, faults: Faults)
    requires Repaired(u, c)
    ensures Repaired(u, SweptCell(u, c, faults))
  {
  }

  /** The user after a series of sweeps, each with its own errors. */
  function SweptThrough(u: UserId, c: Cell, series: seq<Faults>): Cell
    decreases |series|
  {
    if series == [] then c else SweptThrough(u, SweptCell(u, c, series[0]), series[1..])
  }

  /**
   * However many errors strike the sweeps of a job, and wherever: when the job is gone, the
   * user is where one undisturbed resolution would have put it; until then the job is as it was.
   */
  lemma {:induction false} RemovedMeansResolved(u: UserId, c: Cell, series: seq<Faults>)
    ensures var end := SweptThrough(u, c, series);
            || (end.job == c.job && SweptCell(u, end, map[]) == SweptCell(u, c, map[]))
            || (c.job.Some? && Resolvable(u, c.job.value) && end == SweepCell(c, c.job.value.data.value))
    decreases |series|
  {
    if series != [] {
      RetryHeals(u, c, series[0]);
      RemovedMeansResolved(u, SweptCell(u, c, series[0]), series[1..]);
    }
  }

  /** Only a job that is resolved without an error is gone. */
  lemma SweptJob(u: UserId, c: Cell, window: seq<UserId>, faults: Faults)
    ensures AfterSweep(u, c, window, faults).job
         == if u in window && c.job.Some? && Resolvable(u, c.job.value) && u !in faults then None else c.job
  {
  }

  /** A sweep changes only users whose job has failed for good, and removes it unless an error strikes. */
  lemma SweptMeans(u: UserId, c: Cell, window: seq<UserId>, faults: Faults)
    ensures AfterSweep(u, c, window, faults) != c ==> u in window && Meaning.FailedForGood(u, c.job)
    ensures u in window && Meaning.FailedForGood(u, c.job) && u !in faults ==>
              AfterSweep(u, c, window, faults) == SweepCell(c, c.job.value.data.value)
    ensures HasFailedJob(c) && !Meaning.FailedForGood(u, c.job) <==> Untouchable(u, c)
    ensures Struck(u, c, faults) <==> Meaning.FailedForGood(u, c.job) && u in faults
  {
  }

  /** A user moved by the sweep had, after the scans, a job that has failed for good. */
  lemma SweptAfterDiffMeans(u: UserId, before: Cell, scanned: Cell, after: Cell)
    requires DiffCell(u, before.(incidents := {})) == Some(scanned)
    requires after != scanned ==> Meaning.FailedForGood(u, scanned.job)
    ensures SweptAfterDiff(u, before, after) ==> Meaning.FailedForGood(u, Meaning.JobAfter(u, before))
  {
    var c := before.(incidents := {});
    Meaning.DiffIs(u, c);
    assert Meaning.EntryAfter(u, c) == Meaning.EntryAfter(u, before);
  }

  /** The failed jobs that a sweep counts as retained: those that have not failed for good. */
  lemma UnsafeJobsAre(queue: map<UserId, Job>)
    ensures UnsafeJobs(queue) == set u | u in queue && !Meaning.FailedForGood(u, Some(queue[u]))
  {
  }

  /**
   * What an error leaves behind. Before the release it leaves everything; after it the
   * payload is off the ledger, unless its order is persisted, and no row shows that; at the
   * removal only the job is left of it. The job is there every time, so a later sweep retries.
   */
  lemma FaultMeans(c: Cell, p: Payload, f: Fault)
    ensures var t := FaultCell(c, p, f);
            var onFile := c.entry.Some? && c.entry.value.id == p.id;
            var persisted := c.row.Some? && c.row.value.id == p.id && c.row.value.status == Persisted;
            && t.job == c.job && t.incidents == c.incidents
            && (f.BeforeRelease? ==> t == c)
            && (f.AfterRelease? ==> t.row == c.row)
            && (f.AtRemoval? ==> t.(job := None) == SweepCell(c, p))
            && (!f.BeforeRelease? ==>
                  && t.entry == (if onFile && !persisted then None else c.entry)
                  && t.member == (if onFile && !persisted then false else c.member))
  {
  }

  /** What a resolution leaves: no job, the payload off the ledger, and the row that says so. */
  lemma SweepCellMeans(c: Cell, p: Payload)
    ensures var t := SweepCell(c, p);
            var onFile := c.entry.Some? && c.entry.value.id == p.id;
            var persisted := c.row.Some? && c.row.value.status == Persisted;
            var mine := c.row.Some? && c.row.value.id == p.id;
            && t.job == None && t.incidents == c.incidents
            && t.row == (if persisted || mine then c.row else Some(Row(p.id, Compensated, p.at)))
            && t.entry == (if onFile && !(persisted && mine) then None else c.entry)
            && t.member == (if onFile && !(persisted && mine) then false else c.member)
  {
  }

  /** Sweeping a job again after an error leaves what an undisturbed sweep would have left. */
  lemma RetryHeals(u: UserId, c: Cell, faults: Faults)
    ensures SweptCell(u, SweptCell(u, c, faults), map[]) == SweptCell(u, c, map[])
  {
  }

  /** A resolved identity is persisted, or holds nothing and has a compensated or foreign row. */
  lemma SweepSettles(c: Cell, p: Payload)
    ensures var c' := SweepCell(c, p);
            || HasRow(c', p.id, Persisted)
            || (!(c'.entry.Some? && c'.entry.value.id == p.id) && c'.row.Some?
                && (HasRow(c', p.id, Compensated) || IsPersisted(c')))
    ensures IsPersisted(c) ==> SweepCell(c, p).row == c.row
  {
  }

  /** The jobs a sweep can remove; outside errors strike the resolutions of `faulty` users. */
  function RemovableJobs(queue: map<UserId, Job>, faulty: set<UserId>): set<UserId> {
    set u | u in queue && Resolvable(u, queue[u]) && u !in faulty
  }

  /** The jobs whose resolution fails. */
  function ErrorJobs(queue: map<UserId, Job>, faulty: set<UserId>): set<UserId> {
    set u | u in queue && Resolvable(u, queue[u]) && u in faulty
  }

  /** The failed jobs that no sweep may touch. */
  function UnsafeJobs(queue: map<UserId, Job>): set<UserId> {
    set u | u in queue && !Resolvable(u, queue[u])
  }

  /** `failed` lists the failed jobs of the queue, each once. */
  ghost predicate Lists(failed: seq<UserId>, queue: map<UserId, Job>) {
    Distinct(failed) && forall u :: u in failed <==> u in queue && queue[u].state.Failed?
  }

  /** What `Sweep` leaves and where it goes next, in the terms of the code. */
  lemma SweepInCode(failed: seq<UserId>, offset: nat, k: nat, removable: set<UserId>)
    requires k > 0 && failed != [] && Distinct(failed)
    ensures Distinct(Window(failed, offset, k))
    ensures forall u :: u in Window(failed, offset, k) ==> u in failed
    ensures var hit := Count(Window(failed, offset, k), removable);
            && hit <= |failed|
            && Sweep(failed, offset, k, removable).1
               == NextOffset(offset % |failed|, |Window(failed, offset, k)|, hit, |failed| - hit)
  {
    var window, start := Window(failed, offset, k), offset % |failed|;
    forall i, j | 0 <= i < j < |window| ensures window[i] != window[j] {
      assert window[i] == failed[start + i] && window[j] == failed[start + j];
    }
    SweepEffect(failed, offset, k, removable);
  }

  /** A sweep without errors touches exactly the users that it takes off the list. */
  lemma SweptOffList(
      failed: seq<UserId>, offset: nat, k: nat, removable: set<UserId>, u: UserId, c: Cell)
    requires k > 0 && Distinct(failed)
    requires u in failed ==> (u in removable <==> c.job.Some? && Resolvable(u, c.job.value))
    ensures AfterSweep(u, c, SweptWindow(failed, offset, k), map[])
         == if u in failed && u !in Sweep(failed, offset, k, removable).0 then SweptCell(u, c, map[]) else c
  {
    if failed != [] {
      SweepInCode(failed, offset, k, removable);
      SweepMembers(failed, offset, k, removable, u);
    }
  }

  /** A round of `ceil(n/k) + 1` sweeps for every removable job. */
  function SweepsNeeded(failed: seq<UserId>, k: nat, queue: map<UserId, Job>): nat
    requires k > 0
  {
    Count(failed, RemovableJobs(queue, {})) * (Windows(|failed|, k) + 1)
  }

  /** Enough sweeps leave exactly the jobs that no sweep may touch. */
  lemma OnlyUnsafeLeft(failed: seq<UserId>, offset: nat, k: nat, queue: map<UserId, Job>, m: nat)
    requires k > 0 && Lists(failed, queue)
    requires m >= SweepsNeeded(failed, k, queue)
    ensures forall u ::
              u in After(failed, offset, k, RemovableJobs(queue, {}), m).0 <==> u in failed && u in UnsafeJobs(queue)
  {
    var removable := RemovableJobs(queue, {});
    SweepsDrain(failed, offset, k, removable, m);
    forall u {
      WithoutMembers(failed, removable, u);
    }
  }

  /** The list that `Sweep` leaves is the list of the failed jobs that are left. */
  lemma SweptQueue(
      failed: seq<UserId>, offset: nat, k: nat, removable: set<UserId>,
      queue: map<UserId, Job>, queue': map<UserId, Job>)
    requires k > 0 && failed != [] && Lists(failed, queue)
    requires forall u :: Lookup(queue', u) ==
               if u in Window(failed, offset, k) && u in removable then None else Lookup(queue, u)
    ensures forall u :: u in Sweep(failed, offset, k, removable).0 <==> u in queue' && queue'[u].state.Failed?
  {
    forall u
      ensures u in Sweep(failed, offset, k, removable).0 <==> u in queue' && queue'[u].state.Failed?
    {
      SweepMembers(failed, offset, k, removable, u);
      assert Lookup(queue', u) == if u in Window(failed, offset, k) && u in removable then None else Lookup(queue, u);
    }
  }

  lemma {:induction false} CountIsZeroIff(window: seq<UserId>, jobs: set<UserId>)
    ensures Count(window, jobs) == 0 <==> forall u :: u in window ==> u !in jobs
    decreases |window|
  {
    if window != [] {
      CountIsZeroIff(window[1..], jobs);
      assert window == [window[0]] + window[1..];
    }
  }
}

// The scans of a recovery pass, said once for all branches and in terms of what is stored.
//
// `RecoverySpec` follows the order of the scans. Here the pass is characterised by its
// outcome: when it throws, what it leaves on file, which job it leaves, and which incidents
// it records, each in terms of the fields of the row, the entry and the job.
module RecoveryMeaning {
  import opened Types
  import opened RecoverySpec

  /** A queue entry that is this user's persist job under the agreed retry policy. */
  predicate Ours(u: UserId, job: Option<Job>) {
    && job.Some?
    && job.value.name == "persist-order"
    && job.value.attempts == 5
    && job.value.data.Some?
    && job.value.data.value.user == u
  }

  predicate OursFor(u: UserId, job: Option<Job>, id: ReservationId) {
    Ours(u, job) && job.value.data.value.id == id
  }

  predicate RowIs(row: Option<Row>, id: ReservationId, status: Status) {
    row.Some? && row.value.id == id && row.value.status == status
  }

  // ---------- one reservation and one job ----------

  /** The reservation's job is there and still has work to do or to be swept. */
  predicate CoveredIn(u: UserId, job: Option<Job>, id: ReservationId) {
    OursFor(u, job, id) && job.value.state in {Waiting, Active, Delayed, Failed}
  }

  /** The job may give way to one for the live reservation. */
  predicate GivesWay(u: UserId, job: Option<Job>, id: ReservationId, row: Option<Row>) {
    || job.None?
    || (OursFor(u, job, id) && job.value.state == Completed && !RowIs(row, id, Persisted))
    || (Ours(u, job) && job.value.data.value.id != id && job.value.state in {Waiting, Delayed, Failed, Completed}
        && row.Some? && row.value.id == job.value.data.value.id)
  }

  /**
   * A job is queued exactly when none is there or the one that is there may give way; it
   * carries the live identity with a fresh set of attempts. Otherwise the queue is left as it
   * is, and a collision is reported exactly when the reservation is neither covered nor
   * durably stored.
   */
  lemma EnsureQueuedMeans(u: UserId, job: Option<Job>, live: Entry, row: Option<Row>)
    ensures var (after, coverage) := EnsureQueued(u, job, live, row);
            && (coverage == Enqueued <==> GivesWay(u, job, live.id, row))
            && (coverage == AlreadyCovered <==> CoveredIn(u, job, live.id))
            && (coverage == DurablySatisfied <==>
                  && OursFor(u, job, live.id) && job.value.state in {Completed, OtherState}
                  && RowIs(row, live.id, Persisted))
            && (coverage == Enqueued ==>
                  after == Some(Job("persist-order", Some(Payload(u, live.id, if live.Timed? then live.at else 0)),
                                    5, 0, false, Waiting)))
            && (coverage != Enqueued ==> after == job)
  {
  }

  /**
   * A collision is only ever reported about a job that is there and stays, that is not the
   * live reservation's own unfinished job, and that nothing allows to be dropped.
   */
  lemma CollisionMeans(u: UserId, c: Cell, live: Entry)
    requires RetainedCollision !in c.incidents
    ensures RetainedCollision in Cover(u, c, live).incidents ==>
              && c.job.Some?
              && Cover(u, c, live).job == c.job
              && !CoveredIn(u, c.job, live.id)
              && !GivesWay(u, c.job, live.id, c.row)
              && !Queued(u, c, live.id)
              && !SafeToDrop(u, c.row, c.job.value, live.id)
  {
  }

  // ---------- the whole pass for one user ----------

  /** The scan of the queue may restore from the job. */
  predicate Restorable(u: UserId, c: Cell) {
    && Ours(u, c.job)
    && c.job.value.state in {Waiting, Active, Delayed, Failed}
    && (c.job.value.state == Failed ==> c.job.value.attemptsMade >= 5 || c.job.value.stalledOut)
    && !RowIs(c.row, c.job.value.data.value.id, Compensated)
  }

  predicate HasPersistedRow(c: Cell) {
    c.row.Some? && c.row.value.status == Persisted
  }

  /**
   * What a user without an entry gets back: the persisted order's reservation, or the queued
   * one if the scan may restore from it or a lost buyer's membership calls for it.
   */
  function EntryAfter(u: UserId, c: Cell): Option<Entry> {
    if c.entry.Some? then c.entry
    else if HasPersistedRow(c) then Some(Timed(c.row.value.id, c.row.value.at))
    else if Restorable(u, c)
            || (c.member && Ours(u, c.job) && c.job.value.state in {Waiting, Active, Delayed, Failed})
    then Some(Timed(c.job.value.data.value.id, c.job.value.data.value.at))
    else None
  }

  /** The pass gives up: an entry does not parse, or a buyer's identity cannot be told. */
  predicate Throws(u: UserId, c: Cell) {
    || (c.entry.Some? && c.entry.value.Garbled?)
    || (&& c.entry.None? && c.member && EntryAfter(u, c).None?
        && ((c.job.Some? && !Ours(u, c.job)) || c.row.None?))
  }

  /** The check of a buyer whose identity the first scans have not restored. */
  lemma BuyerThrowsIff(u: UserId, c: Cell)
    requires c.entry.None? && !HasPersistedRow(c) && !Restorable(u, c)
    ensures LedgerPhase(u, c) == Some(c)
    ensures BuyerPhase(u, c).None? <==> Throws(u, c)
  {
  }

  lemma EntryThrowsIff(u: UserId, c: Cell)
    requires c.entry.Some?
    ensures DiffCell(u, c).None? <==> Throws(u, c)
  {
    if !c.entry.value.Garbled? {
      EntryPhases(u, c);
    }
  }

  lemma NoEntryThrowsIff(u: UserId, c: Cell)
    requires c.entry.None?
    ensures DiffCell(u, c).None? <==> Throws(u, c)
  {
    NoEntry(u, c);
    var c2 := QueuePhase(u, PersistedPhase(u, c).value, c.job).value;
    if c2.entry.Some? {
      LaterPhases(u, c2);
    } else {
      BuyerThrowsIff(u, c);
    }
  }

  /** Exactly when the scans throw on a user. */
  lemma DiffThrowsIff(u: UserId, c: Cell)
    ensures DiffCell(u, c).None? <==> Throws(u, c)
  {
    if c.entry.Some? {
      EntryThrowsIff(u, c);
    } else {
      NoEntryThrowsIff(u, c);
    }
  }

  lemma NoEntry(u: UserId, c: Cell)
    requires c.entry.None?
    ensures var c1 := PersistedPhase(u, c);
            c1.Some? && QueuePhase(u, c1.value, c.job).Some?
    ensures var c2 := QueuePhase(u, PersistedPhase(u, c).value, c.job).value;
            && c2.job == c.job && c2.row == c.row
            && (c2.entry.Some? <==> HasPersistedRow(c) || Restorable(u, c))
            && (c2.entry.Some? ==> c2.entry == EntryAfter(u, c))
            && (c2.entry.None? ==> c2 == c)
            && (c2.entry.Some? ==> c2.entry.value.Timed? && c2.member)
  {
  }

  /** What the pass leaves on file, and that membership follows it. */
  lemma DiffEntryIs(u: UserId, c: Cell)
    requires DiffCell(u, c).Some?
    ensures DiffCell(u, c).value.entry == EntryAfter(u, c)
    ensures DiffCell(u, c).value.member <==> EntryAfter(u, c).Some?
  {
    DiffRepairs(u, c);
    if c.entry.Some? {
      DiffKeepsEntries(u, c);
    } else {
      NoEntry(u, c);
    }
  }

  /** The live reservation of the user after the pass is not durably stored. */
  predicate NeedsJob(u: UserId, c: Cell) {
    EntryAfter(u, c).Some? && !RowIs(c.row, EntryAfter(u, c).value.id, Persisted)
  }

  /** A job for the live reservation wherever one is due and none stands in its way. */
  function JobAfter(u: UserId, c: Cell): Option<Job> {
    if NeedsJob(u, c) && GivesWay(u, c.job, EntryAfter(u, c).value.id, c.row) then
      var e := EntryAfter(u, c).value;
      Some(Job("persist-order", Some(Payload(u, e.id, if e.Timed? then e.at else 0)), 5, 0, false, Waiting))
    else c.job
  }

  predicate PersistedConflicts(c: Cell) {
    HasPersistedRow(c) && c.entry.Some? && c.entry.value.id != c.row.value.id
  }

  predicate QueueConflicts(u: UserId, c: Cell) {
    Restorable(u, c) && EntryAfter(u, c).Some? && EntryAfter(u, c).value.id != c.job.value.data.value.id
  }

  /** A job that is not the live reservation's own stands in its way. */
  predicate Collides(u: UserId, c: Cell) {
    && NeedsJob(u, c)
    && !CoveredIn(u, c.job, EntryAfter(u, c).value.id)
    && !GivesWay(u, c.job, EntryAfter(u, c).value.id, c.row)
  }

  function IncidentsAfter(u: UserId, c: Cell): set<IncidentKind> {
    c.incidents
    + (if PersistedConflicts(c) then {PersistedConflict} else {})
    + (if QueueConflicts(u, c) then {QueueConflict} else {})
    + (if Collides(u, c) then {RetainedCollision} else {})
  }

  /** The two later scans, from a cell with an entry. */
  lemma LaterPhases(u: UserId, c: Cell)
    requires c.entry.Some? && !c.entry.value.Garbled?
    ensures LedgerPhase(u, c).Some? && BuyerPhase(u, LedgerPhase(u, c).value) == LedgerPhase(u, c)
    ensures LedgerPhase(u, c).value
         == (if RowIs(c.row, c.entry.value.id, Persisted) then c else Cover(u, c, c.entry.value)).(member := true)
  {
  }

  lemma CoverMeans(u: UserId, c: Cell, live: Entry)
    requires !RowIs(c.row, live.id, Persisted)
    ensures var added := Job("persist-order", Some(Payload(u, live.id, if live.Timed? then live.at else 0)),
                             5, 0, false, Waiting);
            var gives, covered := GivesWay(u, c.job, live.id, c.row), CoveredIn(u, c.job, live.id);
            Cover(u, c, live) == c.(job := if gives then Some(added) else c.job,
                                    incidents := c.incidents + if gives || covered then {} else {RetainedCollision})
  {
    EnsureQueuedMeans(u, c.job, live, c.row);
  }

  /** The queue scan on a user with an entry records a conflict and restores membership, no more. */
  lemma QueueScan(u: UserId, c: Cell, c1: Cell)
    requires c1.entry.Some? && c1.entry == c.entry && !c.entry.value.Garbled? && c1.row == c.row
    ensures var c2 := QueuePhase(u, c1, c.job);
            && c2.Some? && c2.value.entry == c.entry && c2.value.row == c.row && c2.value.job == c1.job
            && c2.value.incidents == c1.incidents + if QueueConflicts(u, c) then {QueueConflict} else {}
  {
  }

  /** The scan of persisted orders on a user with an entry. */
  lemma PersistedScan(u: UserId, c: Cell)
    requires c.entry.Some? && !c.entry.value.Garbled?
    ensures var c1 := PersistedPhase(u, c);
            && c1.Some? && c1.value.entry == c.entry && c1.value.row == c.row
            && (!PersistedConflicts(c) ==> c1.value.job == c.job && c1.value.incidents == c.incidents)
            && (PersistedConflicts(c) ==>
                  var covered := if c.entry.value.Timed? then Cover(u, c, c.entry.value) else c;
                  c1.value.job == covered.job && c1.value.incidents == covered.incidents + {PersistedConflict})
  {
  }

  lemma EntryPhases(u: UserId, c: Cell)
    requires c.entry.Some? && !c.entry.value.Garbled?
    ensures DiffCell(u, c).Some?
    ensures DiffCell(u, c).value.job == JobAfter(u, c)
    ensures DiffCell(u, c).value.incidents == IncidentsAfter(u, c)
  {
    var live := c.entry.value;
    var c1 := PersistedPhase(u, c).value;
    PersistedScan(u, c);
    QueueScan(u, c, c1);
    var c2 := QueuePhase(u, c1, c.job).value;
    LaterPhases(u, c2);
    assert DiffCell(u, c) == LedgerPhase(u, c2);
    if !RowIs(c.row, live.id, Persisted) {
      CoverMeans(u, c, live);
      CoverMeans(u, c2, live);
      AfterCover(u, c, c2, live);
    }
  }

  /** Whether or not the first scan has covered the reservation, the second covering leaves the same. */
  lemma AfterCover(u: UserId, c: Cell, c2: Cell, live: Entry)
    requires c2.row == c.row && !RowIs(c.row, live.id, Persisted)
    requires c2.job == c.job || c2.job == Cover(u, c, live).job
    ensures Cover(u, c2, live).job == Cover(u, c, live).job
    ensures RetainedCollision in Cover(u, c2, live).incidents
       <==> RetainedCollision in c2.incidents || EnsureQueued(u, c.job, live, c.row).1 == RetainedJob
  {
  }

  lemma NoEntryEnds(u: UserId, c: Cell)
    requires c.entry.None? && DiffCell(u, c).Some?
    ensures DiffCell(u, c).value.job == JobAfter(u, c)
    ensures DiffCell(u, c).value.incidents == IncidentsAfter(u, c)
  {
    NoEntry(u, c);
    var c2 := QueuePhase(u, PersistedPhase(u, c).value, c.job).value;
    if c2.entry.Some? {
      LaterPhases(u, c2);
      if !RowIs(c.row, c2.entry.value.id, Persisted) {
        CoverMeans(u, c2, c2.entry.value);
      }
    }
  }

  /** The user's job after the pass, and exactly which incidents the pass records. */
  lemma DiffJobAndIncidentsAre(u: UserId, c: Cell)
    requires DiffCell(u, c).Some?
    ensures DiffCell(u, c).value.job == JobAfter(u, c)
    ensures DiffCell(u, c).value.incidents == IncidentsAfter(u, c)
  {
    DiffThrowsIff(u, c);
    if c.entry.Some? {
      EntryPhases(u, c);
    } else {
      NoEntryEnds(u, c);
    }
  }

  /** The four scans in order are this one step: the entry, the job and the incidents at once. */
  lemma DiffIs(u: UserId, c: Cell)
    ensures DiffCell(u, c)
         == if Throws(u, c) then None
            else Some(c.(entry := EntryAfter(u, c), member := EntryAfter(u, c).Some?,
                         job := JobAfter(u, c), incidents := IncidentsAfter(u, c)))
  {
    DiffThrowsIff(u, c);
    if DiffCell(u, c).Some? {
      DiffRepairs(u, c);
      DiffEntryIs(u, c);
      DiffJobAndIncidentsAre(u, c);
    }
  }

  /** What a collision after a whole pass says about the job that was found. */
  lemma DiffCollisionMeans(u: UserId, c: Cell)
    requires DiffCell(u, c).Some? && RetainedCollision !in c.incidents
    ensures var d := DiffCell(u, c).value;
            RetainedCollision in d.incidents ==>
              && d.entry.Some? && c.job.Some? && d.job == c.job
              && !Queued(u, c, d.entry.value.id)
              && !SafeToDrop(u, c.row, c.job.value, d.entry.value.id)
  {
    DiffIs(u, c);
  }

  // ---------- failed jobs ----------

  /**
   * This user's persist job has failed for good: its five attempts are used up, or it stalled
   * more often than the queue allows.
   */
  predicate FailedForGood(u: UserId, job: Option<Job>) {
    Ours(u, job) && job.value.state == Failed && (job.value.attemptsMade >= 5 || job.value.stalledOut)
  }

  /** A queue entry to report: not this user's persist job, or failed with attempts left. */
  predicate IsIssue(u: UserId, job: Option<Job>) {
    job.Some? && (!Ours(u, job) || (job.value.state == Failed && !FailedForGood(u, job)))
  }
}

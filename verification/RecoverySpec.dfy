// What one reconciliation pass does to one user.
//
// A pass touches each user's row, ledger entry, buyer membership and job independently of
// every other user's, so its meaning is a function on one user's cell, and the theorems
// about a pass are theorems about that function.
module RecoverySpec {
  import opened Types

  const PERSIST_ORDER_JOB_NAME := "persist-order"
  const ORDERS_JOB_ATTEMPTS := 5

  datatype JobState = Waiting | Active | Delayed | Failed | Completed | OtherState

  /** A queue entry. `data` is absent when the payload assertion rejects it. */
  datatype Job = Job(
    name: string,
    data: Option<Payload>,
    attempts: nat,
    attemptsMade: nat,
    stalledOut: bool,
    state: JobState)

  datatype IncidentKind = RetainedCollision | QueueConflict | PersistedConflict

  /** Everything the pass can see about one user. */
  datatype Cell = Cell(
    row: Option<Row>,
    entry: Option<Entry>,
    member: bool,
    job: Option<Job>,
    incidents: set<IncidentKind>)

  datatype Coverage = Enqueued | AlreadyCovered | DurablySatisfied | RetainedJob

  predicate LiveState(s: JobState) {
    s.Waiting? || s.Active? || s.Delayed? || s.Failed?
  }

  /** The queue entry stored under the user's job id is one this worker may act on. */
  predicate WellFormed(u: UserId, j: Job) {
    && j.name == PERSIST_ORDER_JOB_NAME
    && j.data.Some?
    && j.data.value.user == u
    && j.attempts == ORDERS_JOB_ATTEMPTS
  }

  predicate Terminal(j: Job) {
    j.attemptsMade >= ORDERS_JOB_ATTEMPTS || j.stalledOut
  }

  predicate HasRow(c: Cell, id: ReservationId, status: Status) {
    c.row.Some? && c.row.value.id == id && c.row.value.status == status
  }

  predicate IsPersisted(c: Cell) {
    c.row.Some? && c.row.value.status == Persisted
  }

  function EntryTime(e: Entry): nat {
    if e.Timed? then e.at else 0
  }

  function FreshJob(u: UserId, live: Entry): Job {
    Job(PERSIST_ORDER_JOB_NAME, Some(Payload(u, live.id, EntryTime(live))), ORDERS_JOB_ATTEMPTS, 0, false, Waiting)
  }

  /** The job after making sure that the live reservation is queued, and how that went. */
  function EnsureQueued(u: UserId, job: Option<Job>, live: Entry, durable: Option<Row>): (Option<Job>, Coverage) {
    if job.None? then (Some(FreshJob(u, live)), Enqueued)
    else if !WellFormed(u, job.value) then (job, RetainedJob)
    else
      var id := job.value.data.value.id;
      var state := job.value.state;
      if id == live.id then
        if LiveState(state) then (job, AlreadyCovered)
        else if durable.Some? && durable.value.id == live.id && durable.value.status == Persisted then
          (job, DurablySatisfied)
        else if state != Completed then (job, RetainedJob)
        else (Some(FreshJob(u, live)), Enqueued)
      else if state == Active || state == OtherState || durable.None? || durable.value.id != id then
        (job, RetainedJob)
      else (Some(FreshJob(u, live)), Enqueued)
  }

  function Note(c: Cell, kind: IncidentKind): Cell {
    c.(incidents := c.incidents + {kind})
  }

  /** The cell after `ensureLiveReservationQueued`, with the incident its callers record. */
  function Cover(u: UserId, c: Cell, live: Entry): Cell {
    var (job, coverage) := EnsureQueued(u, c.job, live, c.row);
    var covered := c.(job := job);
    if coverage == RetainedJob then Note(covered, RetainedCollision) else covered
  }

  /** `applyRecoveryCandidate` from a persisted row; `None` when the pass throws. */
  function ApplyPersisted(u: UserId, c: Cell): Option<Cell>
    requires IsPersisted(c)
  {
    var row := c.row.value;
    match c.entry
    case None => Some(c.(entry := Some(Timed(row.id, row.at)), member := true))
    case Some(e) =>
      if e.Garbled? then None
      else if e.id == row.id then Some(c.(member := true))
      else Some(Note(if e.Timed? then Cover(u, c, e) else c, PersistedConflict))
  }

  /** `applyRecoveryCandidate` from a queued payload; `None` when the pass throws. */
  function ApplyQueued(c: Cell, p: Payload): Option<Cell> {
    match c.entry
    case None => Some(c.(entry := Some(Timed(p.id, p.at)), member := true))
    case Some(e) =>
      if e.Garbled? then None
      else if e.id == p.id then Some(c.(member := true))
      else if HasRow(c, p.id, Compensated) then Some(c)
      else Some(Note(c, QueueConflict))
  }

  /** A scanned job that the pass may restore a reservation from. */
  predicate Candidate(u: UserId, c: Cell, seen: Option<Job>) {
    && seen.Some?
    && WellFormed(u, seen.value)
    && LiveState(seen.value.state)
    && (seen.value.state.Failed? ==> Terminal(seen.value))
    && !HasRow(c, seen.value.data.value.id, Compensated)
  }

  function PersistedPhase(u: UserId, c: Cell): Option<Cell> {
    if IsPersisted(c) then ApplyPersisted(u, c) else Some(c)
  }

  function QueuePhase(u: UserId, c: Cell, seen: Option<Job>): Option<Cell> {
    if Candidate(u, c, seen) then ApplyQueued(c, seen.value.data.value) else Some(c)
  }

  function LedgerPhase(u: UserId, c: Cell): Option<Cell> {
    match c.entry
    case None => Some(c)
    case Some(e) =>
      if e.Garbled? then None
      else if HasRow(c, e.id, Persisted) then Some(c.(member := true))
      else Some(Cover(u, c, e).(member := true))
  }

  /** The first half of `adjudicateBuyerOnly`: pick the source of truth, or throw. */
  function Adjudicate(u: UserId, c: Cell): Option<Cell> {
    if c.job.Some? && !WellFormed(u, c.job.value) then None else
    var live := c.job.Some? && LiveState(c.job.value.state);
    if IsPersisted(c) then
      if live && c.job.value.data.value.id != c.row.value.id then None else ApplyPersisted(u, c)
    else if live then ApplyQueued(c, c.job.value.data.value)
    else if c.row.Some? then (if c.entry.None? then Some(c.(member := false)) else None)
    else None
  }

  /** `resolveBuyerInspection`; a targeted adjudication throws on a retained job. */
  function ResolveInspection(u: UserId, c: Cell, targeted: bool): Option<Cell> {
    match c.entry
    case None => if c.member then None else Some(c)
    case Some(e) =>
      if e.Garbled? then None
      else if targeted && EnsureQueued(u, c.job, e, c.row).1 == RetainedJob then None
      else Some(Cover(u, c, e).(member := true))
  }

  function BuyerPhase(u: UserId, c: Cell): Option<Cell> {
    if !c.member || c.entry.Some? then Some(c)
    else match Adjudicate(u, c)
      case None => None
      case Some(c') => ResolveInspection(u, c', true)
  }

  /** The whole diff for one user, from the cell the pass starts with. */
  function DiffCell(u: UserId, c: Cell): Option<Cell> {
    match PersistedPhase(u, c)
    case None => None
    case Some(c1) =>
      match QueuePhase(u, c1, c.job)
      case None => None
      case Some(c2) =>
        match LedgerPhase(u, c2)
        case None => None
        case Some(c3) => BuyerPhase(u, c3)
  }

  // ---------- what a pass achieves ----------

  /** A well-formed job of the given identity is waiting, running or awaiting the failed-job sweep. */
  predicate Queued(u: UserId, c: Cell, id: ReservationId) {
    && c.job.Some?
    && WellFormed(u, c.job.value)
    && LiveState(c.job.value.state)
    && c.job.value.data.value.id == id
  }

  /** Membership follows the ledger, and every mismatch with a row or a job is on record. */
  predicate Repaired(u: UserId, c: Cell) {
    && (c.member <==> c.entry.Some?)
    && (IsPersisted(c) ==>
          (c.entry.Some? && c.entry.value.id == c.row.value.id) || PersistedConflict in c.incidents)
    && (c.entry.Some? ==>
          || HasRow(c, c.entry.value.id, Persisted)
          || Queued(u, c, c.entry.value.id)
          || RetainedCollision in c.incidents)
  }

  lemma CoverQueues(u: UserId, c: Cell, live: Entry)
    requires !HasRow(c, live.id, Persisted)
    ensures Queued(u, Cover(u, c, live), live.id) || RetainedCollision in Cover(u, c, live).incidents
  {
  }

  lemma PersistedPhaseMatches(u: UserId, c: Cell)
    requires PersistedPhase(u, c).Some? && IsPersisted(c)
    ensures var c1 := PersistedPhase(u, c).value;
            && c1.entry.Some? && c1.row == c.row && (c.member ==> c1.member)
            && (c1.entry.value.id == c.row.value.id || PersistedConflict in c1.incidents)
  {
  }

  lemma LedgerPhaseCovers(u: UserId, c: Cell)
    requires LedgerPhase(u, c).Some? && c.entry.Some?
    ensures var c' := LedgerPhase(u, c).value;
            && c'.entry == c.entry && c'.row == c.row && c'.member && c.incidents <= c'.incidents
            && (|| HasRow(c, c.entry.value.id, Persisted)
                || Queued(u, c', c.entry.value.id)
                || RetainedCollision in c'.incidents)
  {
    if !HasRow(c, c.entry.value.id, Persisted) {
      CoverQueues(u, c, c.entry.value);
    }
  }

  lemma BuyerPhaseCovers(u: UserId, c: Cell)
    requires BuyerPhase(u, c).Some? && c.entry.None?
    ensures var c' := BuyerPhase(u, c).value;
            && c'.row == c.row && c.incidents <= c'.incidents && (c'.member <==> c'.entry.Some?)
            && (c'.entry.Some? ==>
                  || HasRow(c, c'.entry.value.id, Persisted)
                  || Queued(u, c', c'.entry.value.id)
                  || RetainedCollision in c'.incidents)
  {
    if c.member {
      var c1 := Adjudicate(u, c).value;
      if c1.entry.Some? && !HasRow(c1, c1.entry.value.id, Persisted) {
        CoverQueues(u, c1, c1.entry.value);
      }
    }
  }

  /** Whatever the damage, a pass that does not throw leaves the user repaired. */
  lemma DiffRepairs(u: UserId, c: Cell)
    requires DiffCell(u, c).Some?
    ensures Repaired(u, DiffCell(u, c).value)
    ensures DiffCell(u, c).value.row == c.row
  {
    var c1 := PersistedPhase(u, c).value;
    var c2 := QueuePhase(u, c1, c.job).value;
    var c3 := LedgerPhase(u, c2).value;
    if IsPersisted(c) {
      PersistedPhaseMatches(u, c);
    }
    if c2.entry.Some? {
      LedgerPhaseCovers(u, c2);
    } else {
      BuyerPhaseCovers(u, c3);
    }
  }

  /** Live identities are never overwritten: what was on file stays on file. */
  lemma DiffKeepsEntries(u: UserId, c: Cell)
    requires DiffCell(u, c).Some? && c.entry.Some?
    ensures DiffCell(u, c).value.entry == c.entry
  {
    PersistedPhaseKeepsOrReplaces(u, c);
  }

  /** A cell in which nothing is damaged. */
  predicate Sound(u: UserId, c: Cell) {
    && (c.member <==> c.entry.Some?)
    && (c.entry.Some? ==> c.entry.value.Timed?)
    && (IsPersisted(c) ==> c.entry.Some? && c.entry.value.id == c.row.value.id)
    && (c.job.Some? && WellFormed(u, c.job.value) && LiveState(c.job.value.state) ==>
          || (c.entry.Some? && c.entry.value.id == c.job.value.data.value.id)
          || HasRow(c, c.job.value.data.value.id, Compensated))
  }

  /** On a sound user the pass never throws, never writes to Redis, and stays sound. */
  lemma DiffDoesNoHarm(u: UserId, c: Cell)
    requires Sound(u, c)
    ensures DiffCell(u, c).Some?
    ensures var c' := DiffCell(u, c).value;
            c'.entry == c.entry && c'.member == c.member && c'.row == c.row && Sound(u, c')
    ensures var c' := DiffCell(u, c).value;
            c'.incidents <= c.incidents + {RetainedCollision}
  {
  }

  /** What justifies removing a job while its user's reservation `live` is on file. */
  predicate SafeToDrop(u: UserId, row: Option<Row>, j: Job, live: ReservationId) {
    && WellFormed(u, j)
    && j.state != Active
    && j.state != OtherState
    && ((row.Some? && row.value.id == j.data.value.id) || (j.state == Completed && j.data.value.id == live))
  }

  /** A job is only ever removed to queue the live reservation in its place. */
  predicate KeptOrReplaced(u: UserId, c: Cell, c': Cell) {
    || c'.job == c.job
    || (c'.entry.Some? && Queued(u, c', c'.entry.value.id)
        && (c.job.Some? ==> SafeToDrop(u, c.row, c.job.value, c'.entry.value.id)))
  }

  lemma CoverKeepsOrReplaces(u: UserId, c: Cell)
    requires c.entry.Some?
    ensures KeptOrReplaced(u, c, Cover(u, c, c.entry.value))
    ensures Queued(u, c, c.entry.value.id) ==> Cover(u, c, c.entry.value) == c
  {
  }

  lemma PersistedPhaseKeepsOrReplaces(u: UserId, c: Cell)
    requires PersistedPhase(u, c).Some?
    ensures KeptOrReplaced(u, c, PersistedPhase(u, c).value)
    ensures c.entry.Some? ==> PersistedPhase(u, c).value.entry == c.entry
    ensures PersistedPhase(u, c).value.row == c.row
  {
    if c.entry.Some? {
      CoverKeepsOrReplaces(u, c);
    }
  }

  lemma LaterPhasesKeepOrReplace(u: UserId, c: Cell, c2: Cell)
    requires c2.job == c.job && c2.row == c.row
    requires LedgerPhase(u, c2).Some? && BuyerPhase(u, LedgerPhase(u, c2).value).Some?
    ensures KeptOrReplaced(u, c, BuyerPhase(u, LedgerPhase(u, c2).value).value)
    ensures c2.entry.Some? && Queued(u, c2, c2.entry.value.id) ==>
              BuyerPhase(u, LedgerPhase(u, c2).value).value.job == c2.job
    ensures c2.entry.Some? ==> BuyerPhase(u, LedgerPhase(u, c2).value).value.entry == c2.entry
  {
    if c2.entry.Some? {
      CoverKeepsOrReplaces(u, c2);
    } else if c2.member && Adjudicate(u, c2).Some? && Adjudicate(u, c2).value.entry.Some? {
      CoverKeepsOrReplaces(u, Adjudicate(u, c2).value);
    }
  }

  /**
   * A job disappears only when its identity is that of the user's persisted or compensated
   * row, or when it was completed and the same identity is queued again. Malformed and
   * active jobs never disappear.
   */
  lemma DiffDropsSafely(u: UserId, c: Cell)
    requires DiffCell(u, c).Some?
    ensures KeptOrReplaced(u, c, DiffCell(u, c).value)
  {
    var c1 := PersistedPhase(u, c).value;
    var c2 := QueuePhase(u, c1, c.job).value;
    PersistedPhaseKeepsOrReplaces(u, c);
    assert c2.job == c1.job && c2.row == c1.row;
    assert c1.entry.Some? ==> c2.entry == c1.entry;
    LaterPhasesKeepOrReplace(u, c1, c2);
  }

  /**
   * A pass puts a compensated reservation back on file exactly when its user is still a
   * buyer without a ledger entry and a live job still carries that identity.
   */
  lemma CompensatedRevivedIff(u: UserId, c: Cell)
    requires c.row.Some? && c.row.value.status == Compensated && c.entry.None? && DiffCell(u, c).Some?
    ensures var id := c.row.value.id;
            var after := DiffCell(u, c).value.entry;
            (after.Some? && after.value.id == id) <==> c.member && Queued(u, c, id)
  {
    assert QueuePhase(u, c, c.job).Some?;
    if c.member && Queued(u, c, c.row.value.id) {
      assert !Candidate(u, c, c.job);
    }
  }

  /** Scanning a ledger entry twice is the same as scanning it once. */
  lemma LedgerPhaseIdempotent(u: UserId, c: Cell)
    requires LedgerPhase(u, c).Some?
    ensures LedgerPhase(u, LedgerPhase(u, c).value) == LedgerPhase(u, c)
  {
  }

  lemma BuyerPhaseIdempotent(u: UserId, c: Cell)
    requires BuyerPhase(u, c).Some?
    ensures BuyerPhase(u, BuyerPhase(u, c).value) == BuyerPhase(u, c)
  {
  }
}

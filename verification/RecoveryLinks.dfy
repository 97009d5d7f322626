// The recovery pass on states that the order machine can reach.
//
// A pass is only ever run on what purchases, persists and resolutions have left. What it
// can then find wrong is a job that outlived its reservation, and nothing else.
module RecoveryLinks {
  import opened Types
  import opened SaleScripts
  import opened OrderMachine
  import opened OrderInvariant
  import opened OrderTheorems
  import opened RecoverySpec
  import SweepSpec

  type Queue = map<UserId, Job>

  /** The user's queue entry, if this worker may act on it, carries a payload that was confirmed. */
  predicate CarriesConfirmed(past: History, u: UserId, queue: Queue) {
    u in queue && WellFormed(u, queue[u]) ==> Known(past, queue[u].data.value)
  }

  /** The user as the pass sees it in machine state `s`. */
  function Seen(s: State, queue: Queue, u: UserId): Cell {
    SweepSpec.View(s.redis, s.rows, queue, {}, u)
  }

  /** A live job for a reservation that was credited and is not the user's compensated row. */
  predicate Outlived(s: State, queue: Queue, u: UserId) {
    && u in queue
    && WellFormed(u, queue[u])
    && LiveState(queue[u].state)
    && queue[u].data.value.id in s.past.credited
    && !HasRow(Seen(s, queue, u), queue[u].data.value.id, Compensated)
  }

  /** Such a job can put a released reservation back on file. */
  predicate Revivable(s: State, queue: Queue, u: UserId) {
    u !in s.redis.ledger && Outlived(s, queue, u) && (queue[u].state.Failed? ==> Terminal(queue[u]))
  }

  /** Redis and the table agree about every user, whatever the queue holds. */
  lemma StoresAgree(s: State, queue: Queue, u: UserId)
    requires Reachable(s)
    ensures var c := Seen(s, queue, u);
            && (c.member <==> c.entry.Some?)
            && (c.entry.Some? ==> c.entry.value.Timed?)
            && (IsPersisted(c) ==> c.entry.Some? && c.entry.value.id == c.row.value.id)
  {
    ReachableRedis(s);
    if u in s.rows && s.rows[u].status == Persisted {
      PersistedOrdersHoldUnits(s, u);
    }
  }

  /** A confirmed payload is the user's entry exactly while it is not credited. */
  lemma EntryIffUncredited(s: State, queue: Queue, p: Payload)
    requires Reachable(s) && Known(s.past, p)
    ensures var c := Seen(s, queue, p.user);
            (c.entry.Some? && c.entry.value.id == p.id) <==> p.id !in s.past.credited
  {
    ReachableRedis(s);
    assert Live(s.redis, s.past.confirmed[p.id]) <==> s.past.credited[p.id] == 0;
    if p.user in s.redis.ledger {
      var e := s.redis.ledger[p.user];
      assert Known(s.past, Payload(p.user, e.id, e.at));
    }
  }

  /** A reachable user is sound exactly when no job has outlived its reservation. */
  lemma SoundIff(s: State, queue: Queue, u: UserId)
    requires Reachable(s) && CarriesConfirmed(s.past, u, queue)
    ensures Sound(u, Seen(s, queue, u)) <==> !Outlived(s, queue, u)
  {
    StoresAgree(s, queue, u);
    if u in queue && WellFormed(u, queue[u]) {
      EntryIffUncredited(s, queue, queue[u].data.value);
    }
  }

  /**
   * On a reachable user the pass never throws, and it puts a released reservation back on
   * file exactly when the user holds none and a job that outlived it can still be restored
   * from.
   */
  lemma PassRevivesIff(s: State, queue: Queue, u: UserId)
    requires Reachable(s) && CarriesConfirmed(s.past, u, queue)
    ensures var c := Seen(s, queue, u);
            DiffCell(u, c).Some? && (DiffCell(u, c).value.entry != c.entry <==> Revivable(s, queue, u))
    ensures var c := Seen(s, queue, u);
            DiffCell(u, c).value.entry != c.entry ==>
              var p := queue[u].data.value; DiffCell(u, c).value.entry == Some(Timed(p.id, p.at))
  {
    var c := Seen(s, queue, u);
    StoresAgree(s, queue, u);
    if u in queue && WellFormed(u, queue[u]) {
      EntryIffUncredited(s, queue, queue[u].data.value);
    }
    if c.entry.Some? {
      EntryStays(u, c);
    } else {
      EmptyUser(u, c);
    }
  }

  lemma EntryStays(u: UserId, c: Cell)
    requires c.member && c.entry.Some? && c.entry.value.Timed?
    ensures DiffCell(u, c).Some? && DiffCell(u, c).value.entry == c.entry
  {
    var c1 := PersistedPhase(u, c).value;
    var c2 := QueuePhase(u, c1, c.job).value;
    assert c1.entry == c.entry && c1.member;
    assert c2.entry == c.entry && c2.member;
    assert LedgerPhase(u, c2).Some? && LedgerPhase(u, c2).value.entry == c.entry;
  }

  lemma EmptyUser(u: UserId, c: Cell)
    requires !c.member && c.entry.None? && !IsPersisted(c)
    ensures DiffCell(u, c).Some?
    ensures DiffCell(u, c).value.entry ==
            if Candidate(u, c, c.job) then Some(Timed(c.job.value.data.value.id, c.job.value.data.value.at)) else None
  {
    var c2 := QueuePhase(u, c, c.job).value;
    assert c2.member <==> c2.entry.Some?;
  }

  lemma CoverIsFresh(u: UserId, c: Cell, live: Entry)
    ensures Cover(u, c, live).job == c.job || Cover(u, c, live).job == Some(FreshJob(u, live))
  {
  }

  /** A job the pass adds is made from the entry it leaves on file. */
  lemma NewJobIsFresh(u: UserId, c: Cell)
    requires c.member <==> c.entry.Some?
    requires DiffCell(u, c).Some?
    requires IsPersisted(c) ==> c.entry.Some? && c.entry.value.id == c.row.value.id
    ensures var after := DiffCell(u, c).value;
            after.job == c.job || (after.entry.Some? && after.job == Some(FreshJob(u, after.entry.value)))
  {
    var c1 := PersistedPhase(u, c).value;
    var c2 := QueuePhase(u, c1, c.job).value;
    var c3 := LedgerPhase(u, c2).value;
    assert c1 == c;
    assert c2.job == c.job && (c2.member <==> c2.entry.Some?);
    if c2.entry.Some? {
      CoverIsFresh(u, c2, c2.entry.value);
      assert c3.entry == c2.entry;
    } else {
      assert c3 == c2;
    }
    assert DiffCell(u, c) == Some(c3);
  }

  /** Whatever job the pass adds carries a confirmed payload, so persisting it is a step of the machine. */
  lemma NewJobsAreConfirmed(s: State, queue: Queue, u: UserId)
    requires Reachable(s) && CarriesConfirmed(s.past, u, queue)
    ensures var c := Seen(s, queue, u);
            DiffCell(u, c).Some? && var job := DiffCell(u, c).value.job;
            job == c.job || (job.Some? && job.value.data.Some? && Known(s.past, job.value.data.value))
  {
    StoresAgree(s, queue, u);
    PassRevivesIff(s, queue, u);
    NewJobIsFresh(u, Seen(s, queue, u));
    ReachableRedis(s);
  }

  // ---------- a state in which the pass revives a reservation ----------

  /** A terminal failed job that carries the payload. */
  function TerminalJob(p: Payload): Job {
    Job(PERSIST_ORDER_JOB_NAME, Some(p), ORDERS_JOB_ATTEMPTS, ORDERS_JOB_ATTEMPTS, false, Failed)
  }

  /**
   * The revival happens: in any sale and for any purchase in its window, once a resolver has
   * compensated and its row is not committed, a pass puts the credited reservation back. The
   * pass sees the same if that resolver has been rolled back.
   */
  lemma RevivalIsReachable(c: Config, p: Payload, w: WorkerId)
    requires c.total >= 1 && c.startsAtMs <= p.at < c.endsAtMs
    ensures var run := Run(OrderMachine.INITIAL, CrashPrefix(c, p, w));
            var queue := map[p.user := TerminalJob(p)];
            && run.Some? && Reachable(run.value)
            && CarriesConfirmed(run.value.past, p.user, queue)
            && Outlived(run.value, queue, p.user)
            && p.id in run.value.past.credited && p.user !in run.value.redis.ledger
            && DiffCell(p.user, Seen(run.value, queue, p.user)).Some?
            && DiffCell(p.user, Seen(run.value, queue, p.user)).value.entry == Some(Timed(p.id, p.at))
            && Seen(Finish(run.value, w), queue, p.user) == Seen(run.value, queue, p.user)
  {
    CrashIsReachable(c, p, w);
    SellOne(c, p);
    var s := Run(OrderMachine.INITIAL, CrashPrefix(c, p, w)).value;
    PassRevivesIff(s, map[p.user := TerminalJob(p)], p.user);
  }

  // ---------- the pass on a row snapshot that has gone stale ----------

  lemma {:induction false} ConfirmedGrows(s: State, actions: seq<Action>, p: Payload)
    requires Run(s, actions).Some? && Known(s.past, p)
    ensures Known(Run(s, actions).value.past, p)
    decreases |actions|
  {
    if actions != [] {
      StepKeepsConfirmed(s, actions[0], p);
      ConfirmedGrows(Step(s, actions[0]).value, actions[1..], p);
    }
  }

  lemma StepKeepsConfirmed(s: State, a: Action, p: Payload)
    requires Step(s, a).Some? && Known(s.past, p)
    ensures Known(Step(s, a).value.past, p)
  {
  }

  /**
   * Purchases, persists and resolutions may have run since the row was read: a job that the
   * pass then replaces is settled, or was completed and is queued again with its identity.
   */
  lemma StaleReplacementIsSafe(s: State, actions: seq<Action>, u: UserId, j: Job, live: Entry)
    requires Reachable(s) && Run(s, actions).Some?
    requires WellFormed(u, j) ==> Known(Run(s, actions).value.past, j.data.value)
    ensures var (job, _) := EnsureQueued(u, Some(j), live, Lookup(s.rows, u));
            job == Some(j) ||
            (&& WellFormed(u, j)
             && (|| Settled(Run(s, actions).value, j.data.value)
                 || (j.state == Completed && Queued(u, Cell(None, None, false, job, {}), j.data.value.id))))
  {
    var (job, _) := EnsureQueued(u, Some(j), live, Lookup(s.rows, u));
    if job != Some(j) && j.data.value.id != live.id {
      var row := s.rows[u];
      ReachableInv(s);
      assert RowOk(s.past, u, row);
      StaleRowsStaySettled(s, actions, u);
      ConfirmedGrows(s, actions, Payload(u, row.id, row.at));
      assert j.data.value == Payload(u, row.id, row.at);
    }
  }

  /** Restoring from a persisted row that was read at any earlier moment changes nothing. */
  lemma StaleRestoreIsNoop(s: State, actions: seq<Action>, u: UserId)
    requires Reachable(s) && Run(s, actions).Some? && u in s.rows && s.rows[u].status == Persisted
    ensures var redis := Run(s, actions).value.redis;
            CompareRestore(redis, Payload(u, s.rows[u].id, s.rows[u].at)) == (AlreadyMatched, redis)
  {
    ReachableInv(s);
    RunExtends(s, actions);
    RunIsReachable(s, actions);
    RecoveryScriptsAreNoops(Run(s, actions).value, u);
  }

  lemma RunIsReachable(s: State, actions: seq<Action>)
    requires Reachable(s) && Run(s, actions).Some?
    ensures Reachable(Run(s, actions).value)
  {
    var before :| Run(OrderMachine.INITIAL, before) == Some(s);
    RunsJoin(OrderMachine.INITIAL, before, actions);
  }
}

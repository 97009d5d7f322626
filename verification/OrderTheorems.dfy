// What every run of the order machine guarantees, what of it survives any rollback, and the
// one rollback that breaks the rest.
module OrderTheorems {
  import opened Types
  import opened SaleScripts
  import opened OrderMachine
  import opened OrderInvariant
  import opened OrderRollbacks
  import SaleRefinement

  // ---------- whole runs ----------

  lemma InitialHolds()
    ensures Inv(INITIAL)
  {
    assert INITIAL.redis == EMPTY;
  }

  lemma {:induction false} RunKeeps(s: State, actions: seq<Action>)
    requires Inv(s) && Run(s, actions).Some?
    ensures Inv(Run(s, actions).value)
    decreases |actions|
  {
    if actions != [] {
      StepKeeps(s, actions[0]);
      RunKeeps(Step(s, actions[0]).value, actions[1..]);
    }
  }

  /** The states the system can be in. */
  ghost predicate Reachable(s: State) {
    exists actions :: Run(INITIAL, actions) == Some(s)
  }

  lemma ReachableIsFree(s: State)
    requires Reachable(s)
    ensures FreelyReachable(s)
  {
    var actions :| Run(INITIAL, actions) == Some(s);
    RunIsFree(INITIAL, actions);
  }

  lemma ReachableInv(s: State)
    requires Reachable(s)
    ensures Inv(s)
  {
    var actions :| Run(INITIAL, actions) == Some(s);
    InitialHolds();
    RunKeeps(INITIAL, actions);
  }

  lemma ReachableRedis(s: State)
    requires Reachable(s)
    ensures Conserving(s.redis) && LedgerOk(s.redis, s.past) && HistoryOk(s.redis, s.past)
  {
    ReachableInv(s);
  }

  /** Every persisted order holds exactly the unit it was confirmed for, bought inside the window. */
  lemma PersistedOrdersHoldUnits(s: State, user: UserId)
    requires Reachable(s)
    requires user in s.rows && s.rows[user].status == Persisted
    ensures user in s.redis.buyers
    ensures user in s.redis.ledger && s.redis.ledger[user] == Timed(s.rows[user].id, s.rows[user].at)
    ensures s.redis.config.Some?
    ensures s.redis.config.value.startsAtMs <= s.rows[user].at < s.redis.config.value.endsAtMs
  {
    ReachableInv(s);
    InvHoldsUnits(s);
  }

  /** The reservation identities on file. */
  ghost function OnFile(r: Redis): set<ReservationId> {
    set u | u in r.ledger :: r.ledger[u].id
  }

  lemma OnFileIff(r: Redis, past: History, id: ReservationId)
    requires LedgerOk(r, past) && HistoryOk(r, past)
    ensures id in OnFile(r) <==> id in past.confirmed && id !in past.credited
  {
    if id in OnFile(r) {
      var u :| u in r.ledger && r.ledger[u].id == id;
      assert Known(past, Payload(u, id, r.ledger[u].at));
      assert Live(r, past.confirmed[id]);
    }
    if id in past.confirmed && id !in past.credited {
      var u := past.confirmed[id].user;
      assert Live(r, past.confirmed[id]);
      assert u in r.ledger && r.ledger[u].id == id;
    }
  }

  /** Whatever is rolled back: credited at most once, and on file exactly until credited. */
  lemma CreditedOnceThenGone(s: State)
    requires FreelyReachable(s)
    ensures forall id :: s.past.credited[id] <= 1
    ensures OnFile(s.redis) == set id | id in s.past.confirmed && id !in s.past.credited
  {
    FreelyReachableRedis(s);
    forall id ensures id in OnFile(s.redis) <==> id in s.past.confirmed && id !in s.past.credited {
      OnFileIff(s.redis, s.past, id);
    }
  }

  lemma FreelyReachableRedis(s: State)
    requires FreelyReachable(s)
    ensures Conserving(s.redis) && LedgerOk(s.redis, s.past) && HistoryOk(s.redis, s.past)
  {
    FreelyReachableInv(s);
  }

  /** With the admitted rollbacks only, no reservation is both credited and persisted. */
  lemma PersistedIsNotCredited(s: State, user: UserId)
    requires Reachable(s) && user in s.rows && s.rows[user].status == Persisted
    ensures s.rows[user].id !in s.past.credited
  {
    ReachableInv(s);
    assert RowOk(s.past, user, s.rows[user]);
  }

  /** An injective ledger has as many identities as users. */
  lemma {:induction false} OnFileSize(r: Redis)
    requires forall u, v :: u in r.ledger && v in r.ledger && u != v ==> r.ledger[u].id != r.ledger[v].id
    ensures |OnFile(r)| == |r.ledger|
    decreases |r.ledger|
  {
    if r.ledger.Keys == {} {
      assert OnFile(r) == {};
    } else {
      var u :| u in r.ledger.Keys;
      var rest := r.(ledger := r.ledger - {u});
      SaleRefinement.RemovalCount(r.ledger, u);
      OnFileSize(rest);
      forall x | x in OnFile(r) ensures x in OnFile(rest) + {r.ledger[u].id} {
        var v :| v in r.ledger && r.ledger[v].id == x;
        assert v == u || v in rest.ledger;
      }
      forall x | x in OnFile(rest) ensures x in OnFile(r) {
        var v :| v in rest.ledger && rest.ledger[v].id == x;
        assert v in r.ledger;
      }
      assert OnFile(r) == OnFile(rest) + {r.ledger[u].id};
      assert r.ledger[u].id !in OnFile(rest);
    }
  }

  lemma {:induction false} SimpleMultisetSize<T>(m: multiset<T>, s: set<T>)
    requires forall x :: m[x] == if x in s then 1 else 0
    ensures |m| == |s|
    decreases |s|
  {
    if s == {} {
      assert m == multiset{};
    } else {
      var x :| x in s;
      SimpleMultisetSize(m - multiset{x}, s - {x});
      assert m == (m - multiset{x}) + multiset{x};
    }
  }

  lemma DistinctOnFile(r: Redis, past: History)
    requires LedgerOk(r, past)
    ensures forall u, v :: u in r.ledger && v in r.ledger && u != v ==> r.ledger[u].id != r.ledger[v].id
  {
    forall u, v | u in r.ledger && v in r.ledger && u != v ensures r.ledger[u].id != r.ledger[v].id {
      assert Known(past, Payload(u, r.ledger[u].id, r.ledger[u].at));
      assert Known(past, Payload(v, r.ledger[v].id, r.ledger[v].at));
    }
  }

  /** The confirmed reservations are those on file and those credited. */
  lemma ConfirmedSplit(r: Redis, past: History, gone: set<ReservationId>)
    requires LedgerOk(r, past) && HistoryOk(r, past)
    requires gone == set id | id in past.confirmed && id in past.credited
    ensures |past.confirmed| == |OnFile(r)| + |gone|
  {
    forall id
      ensures id in past.confirmed.Keys <==> id in OnFile(r) + gone
      ensures !(id in OnFile(r) && id in gone)
    {
      OnFileIff(r, past, id);
    }
    assert past.confirmed.Keys == OnFile(r) + gone;
    assert |past.confirmed.Keys| == |OnFile(r)| + |gone|;
    assert |past.confirmed| == |past.confirmed.Keys|;
  }

  lemma LedgerSize(r: Redis, past: History)
    requires LedgerOk(r, past) && HistoryOk(r, past)
    ensures |r.ledger| == |past.confirmed| - |past.credited|
  {
    var gone := set id | id in past.confirmed && id in past.credited;
    DistinctOnFile(r, past);
    OnFileSize(r);
    SimpleMultisetSize(past.credited, gone);
    ConfirmedSplit(r, past, gone);
  }

  lemma StockOf(r: Redis, past: History)
    requires Conserving(r) && r.config.Some? && |r.ledger| == |past.confirmed| - |past.credited|
    ensures r.stock == Some(r.config.value.total - |past.confirmed| + |past.credited|)
    ensures 0 <= StockOrZero(r) <= r.config.value.total
  {
  }

  /**
   * Whatever is rolled back: stock is the total, less one unit for every confirmation, plus
   * one for every credit.
   */
  lemma UnitsAreConserved(s: State)
    requires FreelyReachable(s) && s.redis.config.Some?
    ensures s.redis.stock == Some(s.redis.config.value.total - |s.past.confirmed| + |s.past.credited|)
    ensures 0 <= StockOrZero(s.redis) <= s.redis.config.value.total
  {
    FreelyReachableRedis(s);
    LedgerSize(s.redis, s.past);
    StockOf(s.redis, s.past);
  }

  // ---------- persisted is absorbing ----------

  /** `s'` keeps what `s` has decided. */
  ghost predicate Extends(s: State, s': State) {
    && (forall u :: u in s.rows ==> u in s'.rows)
    && (forall u :: u in s.rows && s.rows[u].status == Persisted ==> s'.rows[u] == s.rows[u])
    && (forall id :: s.past.credited[id] <= s'.past.credited[id])
    && (s.redis.config.Some? ==> s'.redis.config == s.redis.config)
  }

  lemma AdvanceExtends(s: State, w: WorkerId)
    requires w in s.txns && SeesRow(s.rows, s.txns[w]) && AdvanceTxn(s, w).Some?
    ensures Extends(s, AdvanceTxn(s, w).value)
  {
  }

  lemma StepExtends(s: State, a: Action)
    requires TxnsSee(s.txns, s.rows, s.past) && StepFreely(s, a).Some?
    ensures Extends(s, StepFreely(s, a).value)
  {
    if a.Advance? {
      AdvanceExtends(s, a.w);
    }
  }

  /**
   * No redelivery, race or rollback of any kind ever changes a persisted row, un-credits, or
   * moves the window.
   */
  lemma {:induction false} PersistedIsAbsorbing(s: State, actions: seq<Action>)
    requires FreeInv(s) && RunFreely(s, actions).Some?
    ensures Extends(s, RunFreely(s, actions).value)
    decreases |actions|
  {
    if actions != [] {
      StepExtends(s, actions[0]);
      StepFreelyKeeps(s, actions[0]);
      PersistedIsAbsorbing(StepFreely(s, actions[0]).value, actions[1..]);
    }
  }

  lemma RunExtends(s: State, actions: seq<Action>)
    requires Inv(s) && Run(s, actions).Some?
    ensures Extends(s, Run(s, actions).value)
  {
    InvIsFree(s);
    RunIsFree(s, actions);
    PersistedIsAbsorbing(s, actions);
  }

  /** Every purchase ever confirmed was made inside the configured window. */
  ghost predicate BoughtInside(s: State) {
    forall id :: id in s.past.confirmed ==>
      s.redis.config.Some?
      && s.redis.config.value.startsAtMs <= s.past.confirmed[id].at < s.redis.config.value.endsAtMs
  }

  /** Only a purchase adds to the history of confirmations, and it looks at the window. */
  lemma StepBuysInside(s: State, a: Action)
    requires BoughtInside(s) && StepFreely(s, a).Some?
    requires s.redis.config.Some? ==> StepFreely(s, a).value.redis.config == s.redis.config
    ensures BoughtInside(StepFreely(s, a).value)
  {
    var s' := StepFreely(s, a).value;
    if a.Buy? {
      var (reply, redis) := Purchase(s.redis, a.user, a.newId, a.now);
      BuySteps(s, a.user, a.newId, a.now);
    } else {
      NothingConfirmed(s, a);
    }
  }

  lemma NothingConfirmed(s: State, a: Action)
    requires !a.Buy? && StepFreely(s, a).Some?
    ensures StepFreely(s, a).value.past.confirmed == s.past.confirmed
  {
  }

  lemma {:induction false} RunBuysInside(s: State, actions: seq<Action>)
    requires FreeInv(s) && BoughtInside(s) && RunFreely(s, actions).Some?
    ensures BoughtInside(RunFreely(s, actions).value)
    decreases |actions|
  {
    if actions != [] {
      StepExtends(s, actions[0]);
      StepFreelyKeeps(s, actions[0]);
      StepBuysInside(s, actions[0]);
      RunBuysInside(StepFreely(s, actions[0]).value, actions[1..]);
    }
  }

  /** Whatever is rolled back, every row, persisted or compensated, was bought inside the window. */
  lemma RowsInsideWindow(s: State, user: UserId)
    requires FreelyReachable(s) && user in s.rows
    ensures s.redis.config.Some?
    ensures s.redis.config.value.startsAtMs <= s.rows[user].at < s.redis.config.value.endsAtMs
  {
    FreelyReachableInv(s);
    var actions :| RunFreely(INITIAL, actions) == Some(s);
    InitialHolds();
    InvIsFree(INITIAL);
    RunBuysInside(INITIAL, actions);
    assert Known(s.past, Payload(user, s.rows[user].id, s.rows[user].at));
  }

  /** No two users share a reservation, so the table's primary key is never violated. */
  lemma OneRowPerReservation(s: State, u: UserId, v: UserId)
    requires FreelyReachable(s) && u in s.rows && v in s.rows && s.rows[u].id == s.rows[v].id
    ensures u == v
  {
    FreelyReachableInv(s);
    assert Known(s.past, Payload(u, s.rows[u].id, s.rows[u].at));
    assert Known(s.past, Payload(v, s.rows[v].id, s.rows[v].at));
  }

  // ---------- what recovery may rely on ----------

  /** Nothing remains to be done for the payload. */
  predicate Settled(s: State, p: Payload) {
    || (p.user in s.rows && s.rows[p.user] == Row(p.id, Persisted, p.at))
    || s.past.credited[p.id] == 1
  }

  /**
   * A row read at any earlier moment settles its reservation for ever, even if the row
   * has since been promoted or replaced. Recovery may therefore drop a job whose identity
   * a stale snapshot shows as persisted or compensated.
   */
  lemma StaleRowsStaySettled(s: State, actions: seq<Action>, user: UserId)
    requires Reachable(s) && user in s.rows && Run(s, actions).Some?
    ensures Settled(Run(s, actions).value, Payload(user, s.rows[user].id, s.rows[user].at))
  {
    ReachableInv(s);
    assert RowOk(s.past, user, s.rows[user]);
    RunExtends(s, actions);
    RunKeeps(s, actions);
  }

  /** A confirmed reservation is never lost: it is settled or still on file. */
  lemma NothingIsLost(s: State, id: ReservationId)
    requires Reachable(s) && id in s.past.confirmed
    ensures Settled(s, s.past.confirmed[id]) || Live(s.redis, s.past.confirmed[id])
  {
    ReachableRedis(s);
  }

  /** Restoring a confirmed payload writes nothing exactly when it is uncredited or its user holds a unit. */
  lemma RestoreIsNoopIff(s: State, id: ReservationId)
    requires Reachable(s) && id in s.past.confirmed
    ensures CompareRestore(s.redis, s.past.confirmed[id]).1 == s.redis
       <==> id !in s.past.credited || s.past.confirmed[id].user in s.redis.ledger
  {
    ReachableRedis(s);
    var p := s.past.confirmed[id];
    assert Live(s.redis, p) <==> s.past.credited[id] == 0;
    if p.user in s.redis.ledger {
      assert s.redis.buyers + {p.user} == s.redis.buyers;
    }
  }

  lemma ConservingIsLeftAlone(r: Redis, user: UserId)
    requires Conserving(r)
    ensures ReconcileMembership(r, user) == (user in r.ledger, r)
    ensures r.config.Some? ==> ReconcileStock(r) == (StockReconciled, r)
    ensures Inspect(r, user) == Both || Inspect(r, user) == Neither
  {
    assert r.config.None? ==> r.buyers == r.ledger.Keys;
    if user in r.ledger {
      assert r.buyers + {user} == r.buyers;
    } else {
      assert r.buyers - {user} == r.buyers;
    }
  }

  lemma MatchIsLeftAlone(r: Redis, p: Payload)
    requires Live(r, p) && p.user in r.buyers
    ensures CompareRestore(r, p) == (AlreadyMatched, r)
  {
    assert r.buyers + {p.user} == r.buyers;
  }

  /** In every reachable state the recovery scripts find nothing to repair. */
  lemma RecoveryScriptsAreNoops(s: State, user: UserId)
    requires Reachable(s)
    ensures ReconcileMembership(s.redis, user) == (user in s.redis.ledger, s.redis)
    ensures s.redis.config.Some? ==> ReconcileStock(s.redis) == (StockReconciled, s.redis)
    ensures user in s.rows && s.rows[user].status == Persisted ==>
              CompareRestore(s.redis, Payload(user, s.rows[user].id, s.rows[user].at)) == (AlreadyMatched, s.redis)
    ensures Inspect(s.redis, user) == Both || Inspect(s.redis, user) == Neither
  {
    ReachableRedis(s);
    ConservingIsLeftAlone(s.redis, user);
    if user in s.rows && s.rows[user].status == Persisted {
      PersistedOrdersHoldUnits(s, user);
      MatchIsLeftAlone(s.redis, Payload(user, s.rows[user].id, s.rows[user].at));
    }
  }

  // ---------- the rollback that the protocol does not survive ----------

  function Redeliver(v: WorkerId, id: ReservationId): seq<Action> {
    [StartPersist(v, id), Advance(v), Advance(v), Advance(v)]
  }

  lemma StepLocks(s: State, v: WorkerId, p: Payload)
    requires v in s.txns && s.txns[v] == Txn(p, PersistBegun) && ReservationFree(s.txns, v, p.id)
    ensures Step(s, Advance(v)) == Some(Put(s, v, Txn(p, PersistLocked)))
  {
  }

  lemma StepInserts(s: State, v: WorkerId, p: Payload)
    requires v in s.txns && s.txns[v] == Txn(p, PersistLocked) && p.user !in s.rows && SlotFree(s.txns, v, p.user)
    ensures Step(s, Advance(v)) == Some(Put(s, v, Txn(p, Closing(InsertRow(Row(p.id, Persisted, p.at))))))
  {
  }

  lemma StepCommits(s: State, v: WorkerId, p: Payload, row: Row)
    requires v in s.txns && s.txns[v] == Txn(p, Closing(InsertRow(row)))
    ensures Step(s, Advance(v)) == Some(s.(rows := s.rows[p.user := row], txns := s.txns - {v}))
  {
  }

  /** An uncontended persist of a payload whose user has no row inserts it, whatever Redis says. */
  lemma RedeliveryInserts(s: State, v: WorkerId, p: Payload)
    requires v !in s.txns && p.user !in s.rows && Known(s.past, p)
    requires ReservationFree(s.txns, v, p.id) && SlotFree(s.txns, v, p.user)
    ensures Run(s, Redeliver(v, p.id)) == Some(s.(rows := s.rows[p.user := Row(p.id, Persisted, p.at)]))
  {
    var row := Row(p.id, Persisted, p.at);
    var s1 := Put(s, v, Txn(p, PersistBegun));
    var s2 := Put(s1, v, Txn(p, PersistLocked));
    var s3 := Put(s2, v, Txn(p, Closing(InsertRow(row))));
    var s4 := s.(rows := s.rows[p.user := row]);
    StepLocks(s1, v, p);
    StepInserts(s2, v, p);
    StepCommits(s3, v, p, row);
    assert s3.txns - {v} == s.txns;
    RunsFour(s, Redeliver(v, p.id), s1, s2, s3, s4);
  }

  lemma RunsFour(s0: State, a: seq<Action>, s1: State, s2: State, s3: State, s4: State)
    requires |a| == 4
    requires Step(s0, a[0]) == Some(s1) && Step(s1, a[1]) == Some(s2)
    requires Step(s2, a[2]) == Some(s3) && Step(s3, a[3]) == Some(s4)
    ensures Run(s0, a) == Some(s4)
  {
    assert a[1..][0] == a[1] && a[1..][1..] == a[2..];
    assert a[2..][0] == a[2] && a[2..][1..] == a[3..];
    assert a[3..][0] == a[3] && a[3..][1..] == [];
    assert Run(s3, a[3..]) == Some(s4);
    assert Run(s2, a[2..]) == Some(s4);
    assert Run(s1, a[1..]) == Some(s4);
  }

  lemma {:induction false} Beyond(ws: set<WorkerId>) returns (v: WorkerId)
    ensures forall w :: w in ws ==> w < v
  {
    if ws == {} {
      v := 0;
    } else {
      var w :| w in ws;
      var u := Beyond(ws - {w});
      v := if u <= w then w + 1 else u;
      assert forall x :: x in ws ==> x == w || x in ws - {w};
    }
  }

  /** An unfinished insert that others wait for is a persister's, unless a resolver's row is coming. */
  lemma SlotHolder(txns: Txns, w: WorkerId, user: UserId) returns (h: WorkerId)
    requires LocksOk(txns) && w in txns && txns[w].payload.user == user
    requires !SlotFree(txns, w, user) && !RowComing(txns, w, user)
    ensures h in txns && h != w && !Compensating(txns[h]) && SlotFree(txns, h, user)
  {
    h :| h in txns && h != w && HoldsSlot(txns[h]) && txns[h].payload.user == user;
    assert !Inserting(txns[h], user);
    forall v | v in txns && v != h && HoldsSlot(txns[v]) ensures txns[v].payload.user != user {
      assert Compatible(txns[v], txns[h]);
    }
  }

  /** Nobody holds the reservation's lock or the user's slot. */
  ghost predicate AllFree(txns: Txns, id: ReservationId, user: UserId) {
    forall v :: ReservationFree(txns, v, id) && SlotFree(txns, v, user)
  }

  lemma FreedByCrash(txns: Txns, w: WorkerId, id: ReservationId, user: UserId, gone: set<WorkerId>)
    requires ReservationFree(txns, w, id) && w in gone
    requires exists h :: h in gone && SlotFree(txns, h, user)
    ensures AllFree(txns - gone, id, user)
  {
  }

  /** Ending `w`, and then the persister whose insert is in the way, if there is one. */
  lemma AfterCrash(s: State, w: WorkerId) returns (rolled: seq<Action>, gone: set<WorkerId>)
    requires LocksOk(s.txns) && w in s.txns && !CanRollBack(s, w)
    ensures Run(Finish(s, w), rolled) == Some(s.(txns := s.txns - gone))
    ensures AllFree(s.txns - gone, s.txns[w].payload.id, s.txns[w].payload.user)
  {
    var p := s.txns[w].payload;
    HeldIsUnclaimed(s.txns, w);
    if SlotFree(s.txns, w, p.user) {
      rolled, gone := [], {w};
    } else {
      var h := SlotHolder(s.txns, w, p.user);
      rolled, gone := [Rollback(h)], {w, h};
      assert rolled == [Rollback(h)] + [];
      RunJoins(Finish(s, w), Rollback(h), []);
      assert s.txns - {w} - {h} == s.txns - gone;
    }
    FreedByCrash(s.txns, w, p.id, p.user, gone);
  }

  /**
   * After any rollback that the machine does not admit, redelivery persists an order whose
   * unit is already back in stock.
   */
  lemma CrashLosesTheUnit(s: State, w: WorkerId) returns (actions: seq<Action>)
    requires Reachable(s) && w in s.txns && !CanRollBack(s, w)
    ensures var p := s.txns[w].payload;
            var end := Run(Finish(s, w), actions);
            && end.Some?
            && end.value.redis == s.redis && end.value.past == s.past
            && end.value.rows == s.rows[p.user := Row(p.id, Persisted, p.at)]
            && p.id in s.past.credited
            && !Live(s.redis, p)
  {
    var p := s.txns[w].payload;
    CompensatedIsGone(s, w);
    var rolled, gone := AfterCrash(s, w);
    var after := s.(txns := s.txns - gone);
    var v := Beyond(after.txns.Keys);
    RedeliveryInserts(after, v, p);
    actions := rolled + Redeliver(v, p.id);
    RunsJoin(Finish(s, w), rolled, Redeliver(v, p.id));
  }

  /** What an open transaction has compensated is credited and off the ledger. */
  lemma CompensatedIsGone(s: State, w: WorkerId)
    requires Reachable(s) && w in s.txns && !CanRollBack(s, w)
    ensures var p := s.txns[w].payload;
            Known(s.past, p) && p.id in s.past.credited && !Live(s.redis, p) && LocksOk(s.txns) && p.user !in s.rows
  {
    ReachableInv(s);
    var p := s.txns[w].payload;
    assert TxnOk(s.rows, s.past, s.txns[w]);
    assert Live(s.redis, s.past.confirmed[p.id]) <==> s.past.credited[p.id] == 0;
  }

  lemma {:induction false} RunsJoin(s: State, a: seq<Action>, b: seq<Action>)
    requires Run(s, a).Some?
    ensures Run(s, a + b) == Run(Run(s, a).value, b)
    decreases |a|
  {
    if a == [] {
      assert a + b == b;
    } else {
      assert (a + b)[0] == a[0] && (a + b)[1..] == a[1..] + b;
      RunsJoin(Step(s, a[0]).value, a[1..], b);
    }
  }

  /** Every persisted order holds the unit it was confirmed for. */
  ghost predicate HoldsUnits(s: State) {
    forall u :: u in s.rows && s.rows[u].status == Persisted ==>
      u in s.redis.buyers && u in s.redis.ledger && s.redis.ledger[u] == Timed(s.rows[u].id, s.rows[u].at)
  }

  /** Whatever steps of the machine follow, every persisted order holds its unit. */
  ghost predicate SafeFrom(s: State) {
    forall actions :: Run(s, actions).Some? ==> HoldsUnits(Run(s, actions).value)
  }

  lemma InvHoldsUnits(s: State)
    requires Inv(s)
    ensures HoldsUnits(s)
  {
    forall u | u in s.rows && s.rows[u].status == Persisted
      ensures u in s.redis.buyers && u in s.redis.ledger && s.redis.ledger[u] == Timed(s.rows[u].id, s.rows[u].at)
    {
      assert RowOk(s.past, u, s.rows[u]);
      assert Live(s.redis, s.past.confirmed[s.rows[u].id]);
    }
  }

  lemma InvIsSafe(s: State)
    requires Inv(s)
    ensures SafeFrom(s)
  {
    forall actions | Run(s, actions).Some? ensures HoldsUnits(Run(s, actions).value) {
      RunKeeps(s, actions);
      InvHoldsUnits(Run(s, actions).value);
    }
  }

  /**
   * After a rollback forced on any open transaction, whatever purchases, persists and
   * resolutions follow leave every persisted order with its unit, exactly when the machine
   * admits the rollback: the transaction has not compensated, or its user has a committed
   * row, or another resolver has inserted that row and is about to commit it.
   */
  lemma CrashHarmlessIff(s: State, w: WorkerId)
    requires Reachable(s) && w in s.txns
    ensures SafeFrom(Finish(s, w)) <==> CanRollBack(s, w)
  {
    if CanRollBack(s, w) {
      ReachableInv(s);
      FinishKeeps(s, w);
      InvIsSafe(Finish(s, w));
    } else {
      var p := s.txns[w].payload;
      var actions := CrashLosesTheUnit(s, w);
      var end := Run(Finish(s, w), actions).value;
      assert p.user in end.rows && end.rows[p.user] == Row(p.id, Persisted, p.at);
      assert !HoldsUnits(end);
    }
  }

  /** Seed, one purchase, and a resolver stopped between its compensation and its INSERT. */
  function CrashPrefix(c: Config, p: Payload, w: WorkerId): seq<Action> {
    [SeedSale(c), Buy(p.user, p.id, p.at), StartResolve(w, p.id), Advance(w), Advance(w), Advance(w)]
  }

  lemma RunJoins(s: State, a: Action, rest: seq<Action>)
    requires Step(s, a).Some?
    ensures Run(s, [a] + rest) == Run(Step(s, a).value, rest)
  {
    assert ([a] + rest)[1..] == rest;
  }

  /** A sale with one confirmed purchase and nothing else. */
  function OneSold(c: Config, p: Payload): State {
    State(Redis(Some(c), Some(c.total - 1), {p.user}, map[p.user := Timed(p.id, p.at)]),
          map[], map[], History(map[p.id := p], multiset{}))
  }

  lemma SellOne(c: Config, p: Payload)
    requires c.total >= 1 && c.startsAtMs <= p.at < c.endsAtMs
    ensures Step(Step(INITIAL, SeedSale(c)).value, Buy(p.user, p.id, p.at)) == Some(OneSold(c, p))
    ensures Release(OneSold(c, p), p)
         == State(Redis(Some(c), Some(c.total), {}, map[]), map[], map[], History(map[p.id := p], multiset{p.id}))
  {
    var bought := Step(Step(INITIAL, SeedSale(c)).value, Buy(p.user, p.id, p.at)).value;
    assert bought.redis.buyers == {p.user};
    assert bought.redis.ledger == map[p.user := Timed(p.id, p.at)];
    assert bought.past.confirmed == map[p.id := p];
    var released := Release(OneSold(c, p), p);
    assert released.redis.ledger == map[];
    assert released.redis.buyers == {};
    assert released.past.credited == multiset{p.id};
  }

  function ResolveToRelease(w: WorkerId, id: ReservationId): seq<Action> {
    [StartResolve(w, id), Advance(w), Advance(w), Advance(w)]
  }

  /** An uncontended resolver of a payload whose user has no row runs up to its compensation. */
  lemma ReleaseIsReached(s: State, w: WorkerId, p: Payload)
    requires w !in s.txns && p.user !in s.rows && Known(s.past, p) && ReservationFree(s.txns, w, p.id)
    ensures Run(s, ResolveToRelease(w, p.id)) == Some(Put(Release(s, p), w, Txn(p, ResolveReleased(None))))
  {
    var s1 := Put(s, w, Txn(p, ResolveBegun));
    var s2 := Put(s1, w, Txn(p, ResolveLocked));
    var s3 := Put(s2, w, Txn(p, ResolveRead(None)));
    var s4 := Put(Release(s3, p), w, Txn(p, ResolveReleased(None)));
    StepLocksResolver(s1, w, p);
    StepReads(s2, w, p);
    StepReleases(s3, w, p);
    RunsFour(s, ResolveToRelease(w, p.id), s1, s2, s3, s4);
    assert s4.txns == s.txns[w := Txn(p, ResolveReleased(None))];
  }

  lemma StepLocksResolver(s: State, w: WorkerId, p: Payload)
    requires w in s.txns && s.txns[w] == Txn(p, ResolveBegun) && ReservationFree(s.txns, w, p.id)
    ensures Step(s, Advance(w)) == Some(Put(s, w, Txn(p, ResolveLocked)))
  {
  }

  lemma StepReads(s: State, w: WorkerId, p: Payload)
    requires w in s.txns && s.txns[w] == Txn(p, ResolveLocked) && p.user !in s.rows
    ensures Step(s, Advance(w)) == Some(Put(s, w, Txn(p, ResolveRead(None))))
  {
  }

  lemma StepReleases(s: State, w: WorkerId, p: Payload)
    requires w in s.txns && s.txns[w] == Txn(p, ResolveRead(None))
    ensures Step(s, Advance(w)) == Some(Put(Release(s, p), w, Txn(p, ResolveReleased(None))))
  {
  }

  /** Such a rollback can be forced: in any sale, for any purchase inside its window. */
  lemma CrashIsReachable(c: Config, p: Payload, w: WorkerId)
    requires c.total >= 1 && c.startsAtMs <= p.at < c.endsAtMs
    ensures var run := Run(INITIAL, CrashPrefix(c, p, w));
            && run.Some? && Reachable(run.value)
            && run.value == Put(Release(OneSold(c, p), p), w, Txn(p, ResolveReleased(None)))
            && !CanRollBack(run.value, w)
  {
    SellOne(c, p);
    var tail := ResolveToRelease(w, p.id);
    ReleaseIsReached(OneSold(c, p), w, p);
    RunJoins(Step(INITIAL, SeedSale(c)).value, Buy(p.user, p.id, p.at), tail);
    RunJoins(INITIAL, SeedSale(c), [Buy(p.user, p.id, p.at)] + tail);
    assert CrashPrefix(c, p, w) == [SeedSale(c)] + ([Buy(p.user, p.id, p.at)] + tail);
  }

  /** A whole resolution up to its COMMIT, of a payload whose user has no row. */
  function ResolveToInsert(x: WorkerId, id: ReservationId): seq<Action> {
    ResolveToRelease(x, id) + [Advance(x)]
  }

  lemma StepInsertsResolved(s: State, x: WorkerId, q: Payload)
    requires x in s.txns && s.txns[x] == Txn(q, ResolveReleased(None)) && q.user !in s.rows
    requires SlotFree(s.txns, x, q.user)
    ensures Step(s, Advance(x)) == Some(Put(s, x, Txn(q, Settling(InsertRow(Row(q.id, Compensated, q.at))))))
  {
  }

  lemma InsertIsReached(s: State, x: WorkerId, q: Payload)
    requires x !in s.txns && q.user !in s.rows && Known(s.past, q)
    requires ReservationFree(s.txns, x, q.id) && SlotFree(s.txns, x, q.user)
    ensures Run(s, ResolveToInsert(x, q.id))
         == Some(Put(Release(s, q), x, Txn(q, Settling(InsertRow(Row(q.id, Compensated, q.at))))))
  {
    var inserting := Txn(q, Settling(InsertRow(Row(q.id, Compensated, q.at))));
    var released := Put(Release(s, q), x, Txn(q, ResolveReleased(None)));
    var inserted := Put(released, x, inserting);
    ReleaseIsReached(s, x, q);
    RunsJoin(s, ResolveToRelease(x, q.id), [Advance(x)]);
    StepInsertsResolved(released, x, q);
    RunJoins(released, Advance(x), []);
    assert [Advance(x)] == [Advance(x)] + [];
    assert Run(inserted, []) == Some(inserted);
    assert inserted.txns == Release(s, q).txns[x := inserting];
  }

  /**
   * The other harmless case can happen too: the same user buys again, and a second resolver
   * has inserted the row when the first one crashes.
   */
  lemma HarmlessCrashIsReachable(c: Config, p: Payload, q: Payload, w: WorkerId, x: WorkerId)
    requires c.total >= 1 && c.startsAtMs <= p.at < c.endsAtMs && c.startsAtMs <= q.at < c.endsAtMs
    requires q.user == p.user && q.id != p.id && x != w
    ensures var run := Run(INITIAL, CrashPrefix(c, p, w) + ([Buy(q.user, q.id, q.at)] + ResolveToInsert(x, q.id)));
            && run.Some?
            && w in run.value.txns && Compensating(run.value.txns[w]) && run.value.txns[w].payload == p
            && p.user !in run.value.rows
            && CanRollBack(run.value, w)
  {
    CrashIsReachable(c, p, w);
    SellOne(c, p);
    var crash := Run(INITIAL, CrashPrefix(c, p, w)).value;
    var bought := Step(crash, Buy(q.user, q.id, q.at)).value;
    assert Known(bought.past, q) && bought.txns == crash.txns && bought.rows == map[];
    InsertIsReached(bought, x, q);
    RunJoins(crash, Buy(q.user, q.id, q.at), ResolveToInsert(x, q.id));
    RunsJoin(INITIAL, CrashPrefix(c, p, w), [Buy(q.user, q.id, q.at)] + ResolveToInsert(x, q.id));
    var end := Put(Release(bought, q), x, Txn(q, Settling(InsertRow(Row(q.id, Compensated, q.at)))));
    assert end.txns[w] == Txn(p, ResolveReleased(None));
    assert x in end.txns && x != w && Inserting(end.txns[x], p.user);
  }
}

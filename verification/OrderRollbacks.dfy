// What survives even when any transaction may be rolled back at any time.
//
// A rollback after the compensation can cost a persisted order its unit, but it cannot make
// Redis disagree with itself, credit a reservation twice, or change a persisted row.
module OrderRollbacks {
  import opened Types
  import opened SaleScripts
  import opened OrderMachine
  import opened OrderInvariant
  import SaleRefinement

  ghost predicate RowsKnown(rows: Table, past: History) {
    forall u :: u in rows ==> Known(past, Payload(u, rows[u].id, rows[u].at))
  }

  ghost predicate TxnsSee(txns: Txns, rows: Table, past: History) {
    forall w :: w in txns ==> Known(past, txns[w].payload) && SeesRow(rows, txns[w])
  }

  /** The part of the invariant that no rollback can break. */
  ghost predicate FreeInv(s: State) {
    && Conserving(s.redis)
    && LedgerOk(s.redis, s.past)
    && HistoryOk(s.redis, s.past)
    && RowsKnown(s.rows, s.past)
    && TxnsSee(s.txns, s.rows, s.past)
    && LocksOk(s.txns)
  }

  lemma InvIsFree(s: State)
    requires Inv(s)
    ensures FreeInv(s)
  {
    forall u | u in s.rows ensures Known(s.past, Payload(u, s.rows[u].id, s.rows[u].at)) {
      assert RowOk(s.past, u, s.rows[u]);
    }
    forall w | w in s.txns ensures Known(s.past, s.txns[w].payload) && SeesRow(s.rows, s.txns[w]) {
      assert TxnOk(s.rows, s.past, s.txns[w]);
    }
  }

  lemma FreePut(s: State, w: WorkerId, t: Txn)
    requires FreeInv(s) && Known(s.past, t.payload) && SeesRow(s.rows, t) && Unclaimed(s.txns, w, t)
    ensures FreeInv(Put(s, w, t))
  {
    PutLocks(s.txns, w, t);
  }

  lemma FreeFinish(s: State, w: WorkerId)
    requires FreeInv(s)
    ensures FreeInv(Finish(s, w))
  {
  }

  /** The step ends the transaction or moves it to where it may go. */
  ghost predicate Moves(s: State, w: WorkerId, s': State)
    requires w in s.txns
  {
    || s' == Finish(s, w)
    || (&& w in s'.txns && s' == Put(s, w, s'.txns[w])
        && s'.txns[w].payload == s.txns[w].payload
        && SeesRow(s.rows, s'.txns[w])
        && Unclaimed(s.txns, w, s'.txns[w]))
  }

  lemma MovesKeep(s: State, w: WorkerId, s': State)
    requires FreeInv(s) && w in s.txns && Moves(s, w, s')
    ensures FreeInv(s')
  {
    if s' == Finish(s, w) {
      FreeFinish(s, w);
    } else {
      FreePut(s, w, s'.txns[w]);
    }
  }

  lemma PersistMoves(s: State, w: WorkerId)
    requires w in s.txns && AdvancePersist(s, w).Some?
    requires SeesRow(s.rows, s.txns[w]) && Unclaimed(s.txns, w, s.txns[w])
    ensures Moves(s, w, AdvancePersist(s, w).value)
  {
  }

  /** A resolver's step either moves it or is the release of its payload and then a move. */
  lemma ResolveMoves(s: State, w: WorkerId)
    requires w in s.txns && AdvanceResolve(s, w).Some?
    requires SeesRow(s.rows, s.txns[w]) && Unclaimed(s.txns, w, s.txns[w])
    ensures var s' := AdvanceResolve(s, w).value;
            Moves(s, w, s') || Moves(Release(s, s.txns[w].payload), w, s')
  {
    var t := s.txns[w];
    if t.stage.ResolveRead? || t.stage.ReleaseAgain? {
      ReleaseMoves(s, w);
    } else {
      QuietMoves(s, w);
    }
  }

  lemma QuietMoves(s: State, w: WorkerId)
    requires w in s.txns && AdvanceResolve(s, w).Some?
    requires !s.txns[w].stage.ResolveRead? && !s.txns[w].stage.ReleaseAgain?
    requires SeesRow(s.rows, s.txns[w]) && Unclaimed(s.txns, w, s.txns[w])
    ensures Moves(s, w, AdvanceResolve(s, w).value)
  {
  }

  lemma ReleaseMoves(s: State, w: WorkerId)
    requires w in s.txns && (s.txns[w].stage.ResolveRead? || s.txns[w].stage.ReleaseAgain?)
    requires SeesRow(s.rows, s.txns[w]) && Unclaimed(s.txns, w, s.txns[w])
    ensures var s' := AdvanceResolve(s, w).value;
            Moves(s, w, s') || Moves(Release(s, s.txns[w].payload), w, s')
  {
    var p := s.txns[w].payload;
    assert Release(s, p).txns == s.txns && Release(s, p).rows == s.rows;
  }

  lemma FreeRelease(s: State, p: Payload)
    requires FreeInv(s) && Known(s.past, p)
    ensures FreeInv(Release(s, p))
  {
    ReleaseEffect(s, p);
    var s' := Release(s, p);
    assert s'.past.confirmed == s.past.confirmed && s'.rows == s.rows && s'.txns == s.txns;
    forall u | u in s'.rows ensures Known(s'.past, Payload(u, s'.rows[u].id, s'.rows[u].at)) {
      assert Known(s.past, Payload(u, s.rows[u].id, s.rows[u].at));
    }
    forall w | w in s'.txns ensures Known(s'.past, s'.txns[w].payload) && SeesRow(s'.rows, s'.txns[w]) {
      assert Known(s.past, s.txns[w].payload);
    }
  }

  /** A committed write leaves what other transactions have read as it was. */
  lemma WriteKeepsSight(rows: Table, mine: Txn, write: Write, t: Txn)
    requires mine.stage == Closing(write) || mine.stage == Settling(write)
    requires SeesRow(rows, mine) && SeesRow(rows, t) && Compatible(t, mine)
    ensures SeesRow(Apply(rows, mine.payload.user, write), t)
  {
  }

  lemma CommitKeepsSight(s: State, w: WorkerId, write: Write)
    requires TxnsSee(s.txns, s.rows, s.past) && LocksOk(s.txns) && w in s.txns
    requires s.txns[w].stage == Closing(write) || s.txns[w].stage == Settling(write)
    ensures TxnsSee(s.txns - {w}, Apply(s.rows, s.txns[w].payload.user, write), s.past)
  {
    var rows := Apply(s.rows, s.txns[w].payload.user, write);
    forall v | v in s.txns - {w} ensures Known(s.past, s.txns[v].payload) && SeesRow(rows, s.txns[v]) {
      assert Known(s.past, s.txns[v].payload) && SeesRow(s.rows, s.txns[v]);
      WriteKeepsSight(s.rows, s.txns[w], write, s.txns[v]);
    }
  }

  lemma CommitKeepsRowsKnown(rows: Table, past: History, t: Txn, write: Write)
    requires RowsKnown(rows, past) && Known(past, t.payload) && SeesRow(rows, t)
    requires t.stage == Closing(write) || t.stage == Settling(write)
    ensures RowsKnown(Apply(rows, t.payload.user, write), past)
  {
    var rows' := Apply(rows, t.payload.user, write);
    forall u | u in rows' ensures Known(past, Payload(u, rows'[u].id, rows'[u].at)) {
      if u in rows {
        assert Known(past, Payload(u, rows[u].id, rows[u].at));
      }
    }
  }

  lemma FreeCommit(s: State, w: WorkerId, write: Write)
    requires FreeInv(s) && w in s.txns
    requires s.txns[w].stage == Closing(write) || s.txns[w].stage == Settling(write)
    ensures FreeInv(Commit(s, w, write))
  {
    assert SeesRow(s.rows, s.txns[w]) && Known(s.past, s.txns[w].payload);
    CommitKeepsRowsKnown(s.rows, s.past, s.txns[w], write);
    CommitKeepsSight(s, w, write);
    CommitLocks(s.txns, w);
  }

  lemma FreeAdvance(s: State, w: WorkerId)
    requires FreeInv(s) && AdvanceTxn(s, w).Some?
    ensures FreeInv(AdvanceTxn(s, w).value)
  {
    var stage := s.txns[w].stage;
    if stage.Closing? {
      FreeCommit(s, w, stage.pending);
    } else if stage.Settling? {
      FreeCommit(s, w, stage.settled);
    } else {
      HeldIsUnclaimed(s.txns, w);
      var s' := AdvanceTxn(s, w).value;
      if Persisting(stage) {
        PersistMoves(s, w);
        MovesKeep(s, w, s');
      } else {
        ResolveMoves(s, w);
        FreeRelease(s, s.txns[w].payload);
        if Moves(s, w, s') {
          MovesKeep(s, w, s');
        } else {
          MovesKeep(Release(s, s.txns[w].payload), w, s');
        }
      }
    }
  }

  lemma FreeConfirm(s: State, redis: Redis, p: Payload)
    requires FreeInv(s) && p.id !in s.past.confirmed && p.user !in s.redis.ledger
    requires Conserving(redis) && redis.ledger == s.redis.ledger[p.user := Timed(p.id, p.at)]
    ensures FreeInv(s.(redis := redis, past := s.past.(confirmed := s.past.confirmed[p.id := p])))
  {
    ConfirmKeepsLedger(s.redis, redis, s.past, p);
    KnownGrows(s, s.past.(confirmed := s.past.confirmed[p.id := p]));
  }

  lemma FreeBuy(s: State, user: UserId, id: ReservationId, now: nat)
    requires FreeInv(s) && id !in s.past.confirmed
    ensures FreeInv(Step(s, Buy(user, id, now)).value)
  {
    SaleRefinement.PurchaseEffect(s.redis, user, id, now);
    var (reply, redis) := Purchase(s.redis, user, id, now);
    BuySteps(s, user, id, now);
    if reply.code == Confirmed {
      FreeConfirm(s, redis, Payload(user, id, now));
    }
  }

  lemma BuySteps(s: State, user: UserId, id: ReservationId, now: nat)
    requires id !in s.past.confirmed
    ensures var (reply, redis) := Purchase(s.redis, user, id, now);
            Step(s, Buy(user, id, now)) == Some(
              if reply.code == Confirmed
              then s.(redis := redis, past := s.past.(confirmed := s.past.confirmed[id := Payload(user, id, now)]))
              else s.(redis := redis))
  {
  }

  lemma KnownGrows(s: State, past: History)
    requires RowsKnown(s.rows, s.past) && TxnsSee(s.txns, s.rows, s.past)
    requires forall p :: Known(s.past, p) ==> Known(past, p)
    ensures RowsKnown(s.rows, past) && TxnsSee(s.txns, s.rows, past)
  {
  }

  lemma FreeSeed(s: State, c: Config)
    requires FreeInv(s)
    ensures FreeInv(Step(s, SeedSale(c)).value)
  {
    SaleRefinement.SeedConservesIff(s.redis, c, c.total);
    var redis := Step(s, SeedSale(c)).value.redis;
    assert redis.ledger == s.redis.ledger;
    forall p ensures Live(redis, p) == Live(s.redis, p) {}
  }

  lemma FreeStart(s: State, w: WorkerId, id: ReservationId, stage: Stage)
    requires FreeInv(s) && w !in s.txns && id in s.past.confirmed
    requires stage.PersistBegun? || stage.ResolveBegun?
    ensures FreeInv(Put(s, w, Txn(s.past.confirmed[id], stage)))
  {
    assert s.past.confirmed[id].id == id;
    FreePut(s, w, Txn(s.past.confirmed[id], stage));
  }

  lemma StepFreelyKeeps(s: State, a: Action)
    requires FreeInv(s) && StepFreely(s, a).Some?
    ensures FreeInv(StepFreely(s, a).value)
  {
    match a
    case SeedSale(c) => FreeSeed(s, c);
    case Buy(user, id, now) => FreeBuy(s, user, id, now);
    case StartPersist(w, id) => FreeStart(s, w, id, PersistBegun);
    case StartResolve(w, id) => FreeStart(s, w, id, ResolveBegun);
    case Rollback(w) => FreeFinish(s, w);
    case Advance(w) => FreeAdvance(s, w);
  }

  lemma {:induction false} RunFreelyKeeps(s: State, actions: seq<Action>)
    requires FreeInv(s) && RunFreely(s, actions).Some?
    ensures FreeInv(RunFreely(s, actions).value)
    decreases |actions|
  {
    if actions != [] {
      StepFreelyKeeps(s, actions[0]);
      RunFreelyKeeps(StepFreely(s, actions[0]).value, actions[1..]);
    }
  }

  /** The states the system can be in, whatever is rolled back. */
  ghost predicate FreelyReachable(s: State) {
    exists actions :: RunFreely(INITIAL, actions) == Some(s)
  }

  lemma FreelyReachableInv(s: State)
    requires FreelyReachable(s)
    ensures FreeInv(s)
  {
    var actions :| RunFreely(INITIAL, actions) == Some(s);
    assert INITIAL.redis == EMPTY;
    RunFreelyKeeps(INITIAL, actions);
  }

  /** A run whose rollbacks are all admitted is one of these runs. */
  lemma {:induction false} RunIsFree(s: State, actions: seq<Action>)
    requires Run(s, actions).Some?
    ensures RunFreely(s, actions) == Run(s, actions)
    decreases |actions|
  {
    if actions != [] {
      RunIsFree(Step(s, actions[0]).value, actions[1..]);
    }
  }
}

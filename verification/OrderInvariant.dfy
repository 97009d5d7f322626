// The invariant of the order machine and its preservation by every step.
//
// Each clause speaks only of the parts of the state it depends on, so a step that leaves
// those parts alone keeps the clause for free.
module OrderInvariant {
  import opened Types
  import opened SaleScripts
  import opened OrderMachine
  import SaleRefinement

  type Txns = map<WorkerId, Txn>

  /** The reservation is the one on file for its user. */
  predicate Live(r: Redis, p: Payload) {
    p.user in r.ledger && r.ledger[p.user] == Timed(p.id, p.at)
  }

  predicate Known(past: History, p: Payload) {
    p.id in past.confirmed && past.confirmed[p.id] == p
  }

  /** Ledger entries are confirmed payloads. */
  ghost predicate LedgerOk(r: Redis, past: History) {
    forall u :: u in r.ledger ==>
      r.ledger[u].Timed? && Known(past, Payload(u, r.ledger[u].id, r.ledger[u].at))
  }

  /** A confirmed reservation is on file exactly until it is credited, and credited once. */
  ghost predicate HistoryOk(r: Redis, past: History) {
    && (forall id :: id in past.confirmed ==>
          past.confirmed[id].id == id && (Live(r, past.confirmed[id]) <==> past.credited[id] == 0))
    && (forall id :: id in past.credited ==> id in past.confirmed && past.credited[id] == 1)
  }

  /** A persisted row was never credited; a compensated row was. */
  predicate RowOk(past: History, user: UserId, row: Row) {
    && Known(past, Payload(user, row.id, row.at))
    && past.credited[row.id] == (if row.status == Persisted then 0 else 1)
  }

  ghost predicate RowsOk(rows: Table, past: History) {
    forall u :: u in rows ==> RowOk(past, u, rows[u])
  }

  /** A pending write is its payload's row, and the table is ready for it. */
  predicate Fits(rows: Table, p: Payload, write: Write) {
    match write
    case NoWrite => true
    case InsertRow(row) => row.id == p.id && row.at == p.at && p.user !in rows
    case UpdateRow(row) =>
      row.id == p.id && row.at == p.at && p.user in rows && rows[p.user].status == Compensated
  }

  /** What a transaction has read is still in the table. */
  predicate SeesRow(rows: Table, t: Txn) {
    var user := t.payload.user;
    match t.stage
    case PersistConflicted => user in rows
    case PersistRead(row) => user in rows && rows[user] == row
    case PersistMatched(row) => user in rows && rows[user] == row && row.status == Compensated
    case ResolveRead(found) => found.Some? ==> user in rows && rows[user] == found.value
    case ResolveReleased(kept) => kept.Some? ==> user in rows && rows[user] == kept.value
    case Closing(write) => Fits(rows, t.payload, write)
    case Settling(write) => Fits(rows, t.payload, write)
    case _ => true
  }

  /** What a pending write says about its user and relies on in the history. */
  predicate WriteOk(rows: Table, past: History, p: Payload, write: Write, status: Status) {
    && Fits(rows, p, write)
    && past.credited[p.id] == (if status == Persisted then 0 else 1)
    && match write
       case NoWrite => p.user in rows
       case InsertRow(row) => row.status == status
       case UpdateRow(row) => row.status == status
  }

  predicate TxnOk(rows: Table, past: History, t: Txn) {
    var p := t.payload;
    && Known(past, p)
    && SeesRow(rows, t)
    && match t.stage
       case PersistMatched(_) => past.credited[p.id] == 0
       case ResolveRead(found) => found.None? && p.user in rows ==> rows[p.user].id != p.id
       case ResolveReleased(_) => past.credited[p.id] == 1
       case ResolveRepeated => past.credited[p.id] == 1
       case ReleaseAgain => past.credited[p.id] == 1
       case Closing(write) => write.NoWrite? || WriteOk(rows, past, p, write, Persisted)
       case Settling(write) => WriteOk(rows, past, p, write, Compensated)
       case _ => true
  }

  ghost predicate TxnsOk(txns: Txns, rows: Table, past: History) {
    forall w :: w in txns ==> TxnOk(rows, past, txns[w])
  }

  /** Two transactions never share a lock. */
  predicate Compatible(t: Txn, u: Txn) {
    && (HoldsReservation(t) && HoldsReservation(u) ==> t.payload.id != u.payload.id)
    && (HoldsRow(t) && HoldsRow(u) ==> t.payload.user != u.payload.user)
    && (HoldsSlot(t) && HoldsSlot(u) ==> t.payload.user != u.payload.user)
  }

  ghost predicate LocksOk(txns: Txns) {
    forall v, w :: v in txns && w in txns && v != w ==> Compatible(txns[v], txns[w])
  }

  predicate Releasing(t: Txn, id: ReservationId) {
    t.payload.id == id && Compensating(t)
  }

  /** The transaction is bound to leave the reservation's user with a row. */
  predicate Accounts(t: Txn, id: ReservationId, user: UserId) {
    Releasing(t, id) || Inserting(t, user)
  }

  ghost predicate InFlight(txns: Txns, id: ReservationId, user: UserId) {
    exists w :: w in txns && Accounts(txns[w], id, user)
  }

  /** A credited reservation has a row for its user, or some resolver is on its way to one. */
  ghost predicate NoOrphans(txns: Txns, rows: Table, past: History) {
    forall id :: id in past.credited && id in past.confirmed ==>
      past.confirmed[id].user in rows || InFlight(txns, id, past.confirmed[id].user)
  }

  ghost predicate Inv(s: State) {
    && Conserving(s.redis)
    && LedgerOk(s.redis, s.past)
    && HistoryOk(s.redis, s.past)
    && RowsOk(s.rows, s.past)
    && TxnsOk(s.txns, s.rows, s.past)
    && LocksOk(s.txns)
    && NoOrphans(s.txns, s.rows, s.past)
  }

  // ---------- one transaction moves, nothing shared changes ----------

  predicate Unclaimed(txns: Txns, w: WorkerId, t: Txn) {
    && (HoldsReservation(t) ==> ReservationFree(txns, w, t.payload.id))
    && (HoldsRow(t) ==> RowFree(txns, w, t.payload.user))
    && (HoldsSlot(t) ==> SlotFree(txns, w, t.payload.user))
  }

  lemma HeldIsUnclaimed(txns: Txns, w: WorkerId)
    requires LocksOk(txns) && w in txns
    ensures Unclaimed(txns, w, txns[w])
  {
    forall v | v in txns && v != w ensures Compatible(txns[v], txns[w]) {}
  }

  lemma PutLocks(txns: Txns, w: WorkerId, t: Txn)
    requires LocksOk(txns) && Unclaimed(txns, w, t)
    ensures LocksOk(txns[w := t])
  {
    var txns' := txns[w := t];
    forall v, v' | v in txns' && v' in txns' && v != v' ensures Compatible(txns'[v], txns'[v']) {
      if v != w && v' != w {
        assert Compatible(txns[v], txns[v']);
      }
    }
  }

  /** A resolver in flight stays in flight while only another worker's transaction changes. */
  lemma StaysInFlight(txns: Txns, txns': Txns, w: WorkerId, id: ReservationId, user: UserId)
    requires InFlight(txns, id, user)
    requires forall v :: v in txns && v != w ==> v in txns' && txns'[v] == txns[v]
    requires w in txns && Accounts(txns[w], id, user) ==> InFlight(txns', id, user)
    ensures InFlight(txns', id, user)
  {
    var v :| v in txns && Accounts(txns[v], id, user);
    if v != w {
      assert v in txns' && Accounts(txns'[v], id, user);
    }
  }

  lemma PutOrphans(txns: Txns, rows: Table, past: History, w: WorkerId, t: Txn)
    requires NoOrphans(txns, rows, past)
    requires w in txns ==> !txns[w].stage.Settling? && t.payload == txns[w].payload && Known(past, t.payload)
    requires w in txns && Compensating(txns[w]) ==> Compensating(t) || t.payload.user in rows
    ensures NoOrphans(txns[w := t], rows, past)
  {
    forall id | id in past.credited && id in past.confirmed && past.confirmed[id].user !in rows
      ensures InFlight(txns[w := t], id, past.confirmed[id].user)
    {
      var user := past.confirmed[id].user;
      if w in txns && Accounts(txns[w], id, user) {
        assert w in txns[w := t] && Accounts(txns[w := t][w], id, user);
      }
      StaysInFlight(txns, txns[w := t], w, id, user);
    }
  }

  /** A transaction may start or move when its own condition holds and its locks are unclaimed. */
  lemma PutKeeps(s: State, w: WorkerId, t: Txn)
    requires Inv(s)
    requires TxnOk(s.rows, s.past, t) && Unclaimed(s.txns, w, t)
    requires w in s.txns ==> t.payload == s.txns[w].payload && !s.txns[w].stage.Settling?
    requires w in s.txns && Compensating(s.txns[w]) ==> Compensating(t) || t.payload.user in s.rows
    ensures Inv(Put(s, w, t))
  {
    PutLocks(s.txns, w, t);
    PutOrphans(s.txns, s.rows, s.past, w, t);
  }

  lemma FinishOrphans(s: State, w: WorkerId)
    requires NoOrphans(s.txns, s.rows, s.past) && w in s.txns && CanRollBack(s, w)
    requires Known(s.past, s.txns[w].payload)
    ensures NoOrphans(s.txns - {w}, s.rows, s.past)
  {
    forall id | id in s.past.credited && id in s.past.confirmed && s.past.confirmed[id].user !in s.rows
      ensures InFlight(s.txns - {w}, id, s.past.confirmed[id].user)
    {
      var user := s.past.confirmed[id].user;
      if Accounts(s.txns[w], id, user) {
        assert s.txns[w].payload.user == user;
        var v :| v in s.txns && v != w && Inserting(s.txns[v], user);
        assert v in s.txns - {w} && Accounts((s.txns - {w})[v], id, user);
      }
      StaysInFlight(s.txns, s.txns - {w}, w, id, user);
    }
  }

  /** Ending a transaction that may be rolled back is harmless. */
  lemma FinishKeeps(s: State, w: WorkerId)
    requires Inv(s) && w in s.txns && CanRollBack(s, w)
    ensures Inv(Finish(s, w))
  {
    assert TxnOk(s.rows, s.past, s.txns[w]);
    FinishOrphans(s, w);
  }

  // ---------- Redis steps ----------

  lemma SeedKeeps(s: State, c: Config)
    requires Inv(s)
    ensures Inv(Step(s, SeedSale(c)).value)
    ensures s.redis.config.Some? ==> Step(s, SeedSale(c)).value == s
  {
    SaleRefinement.SeedConservesIff(s.redis, c, c.total);
    var redis := Step(s, SeedSale(c)).value.redis;
    assert redis.ledger == s.redis.ledger;
    forall p ensures Live(redis, p) == Live(s.redis, p) {}
  }

  /** A new confirmed payload leaves every fact about older reservations as it was. */
  lemma ConfirmKeepsTxns(s: State, past: History, p: Payload)
    requires RowsOk(s.rows, s.past) && TxnsOk(s.txns, s.rows, s.past) && NoOrphans(s.txns, s.rows, s.past)
    requires p.id !in s.past.confirmed && p.id !in s.past.credited
    requires past == s.past.(confirmed := s.past.confirmed[p.id := p])
    ensures RowsOk(s.rows, past) && TxnsOk(s.txns, s.rows, past) && NoOrphans(s.txns, s.rows, past)
  {
    forall u | u in s.rows ensures RowOk(past, u, s.rows[u]) {
      assert RowOk(s.past, u, s.rows[u]);
    }
    forall w | w in s.txns ensures TxnOk(s.rows, past, s.txns[w]) {
      assert TxnOk(s.rows, s.past, s.txns[w]);
    }
  }

  lemma ConfirmKeepsLedger(r: Redis, r': Redis, past: History, p: Payload)
    requires LedgerOk(r, past) && HistoryOk(r, past)
    requires p.id !in past.confirmed && p.user !in r.ledger
    requires r'.ledger == r.ledger[p.user := Timed(p.id, p.at)]
    ensures var past' := past.(confirmed := past.confirmed[p.id := p]);
            LedgerOk(r', past') && HistoryOk(r', past')
  {
    var past' := past.(confirmed := past.confirmed[p.id := p]);
    forall u | u in r'.ledger
      ensures r'.ledger[u].Timed? && Known(past', Payload(u, r'.ledger[u].id, r'.ledger[u].at))
    {
      if u != p.user {
        assert Known(past, Payload(u, r.ledger[u].id, r.ledger[u].at));
      }
    }
    forall id | id in past.confirmed
      ensures Live(r', past'.confirmed[id]) <==> past'.credited[id] == 0
    {
      assert Live(r, past.confirmed[id]) <==> past.credited[id] == 0;
    }
  }

  lemma BuyKeeps(s: State, user: UserId, id: ReservationId, now: nat)
    requires Inv(s) && id !in s.past.confirmed
    ensures Inv(Step(s, Buy(user, id, now)).value)
  {
    SaleRefinement.PurchaseEffect(s.redis, user, id, now);
    var (reply, redis) := Purchase(s.redis, user, id, now);
    if reply.code == Confirmed {
      var p := Payload(user, id, now);
      ConfirmKeepsLedger(s.redis, redis, s.past, p);
      ConfirmKeepsTxns(s, s.past.(confirmed := s.past.confirmed[id := p]), p);
    }
  }

  /** Compensating a payload credits it exactly when it was still on file. */
  lemma ReleaseEffect(s: State, p: Payload)
    requires Conserving(s.redis) && LedgerOk(s.redis, s.past) && HistoryOk(s.redis, s.past) && Known(s.past, p)
    ensures var s' := Release(s, p);
            && Conserving(s'.redis) && LedgerOk(s'.redis, s'.past) && HistoryOk(s'.redis, s'.past)
            && s'.past == s.past.(credited := s.past.credited[p.id := 1])
            && (s.past.credited[p.id] == 1 ==> s' == s)
  {
    SaleRefinement.CompensateRefines(s.redis, p.user, p.id);
    var s' := Release(s, p);
    assert Live(s.redis, p) <==> s.past.credited[p.id] == 0;
    if Compensate(s.redis, p.user, p.id).0 == Released {
      assert Known(s.past, Payload(p.user, s.redis.ledger[p.user].id, s.redis.ledger[p.user].at));
      assert Live(s.redis, p);
      assert s'.redis.ledger == s.redis.ledger - {p.user};
      assert s'.past.credited == s.past.credited[p.id := 1];
      forall id | id in s'.past.confirmed
        ensures Live(s'.redis, s'.past.confirmed[id]) <==> s'.past.credited[id] == 0
      {
        assert Live(s.redis, s.past.confirmed[id]) <==> s.past.credited[id] == 0;
      }
    } else {
      assert s' == s;
      assert !Live(s.redis, p);
    }
  }

  /** Crediting a reservation disturbs no row and no other transaction. */
  lemma CreditKeepsTxns(s: State, w: WorkerId, past: History)
    requires RowsOk(s.rows, s.past) && TxnsOk(s.txns, s.rows, s.past) && LocksOk(s.txns)
    requires w in s.txns && HoldsReservation(s.txns[w])
    requires var p := s.txns[w].payload;
             && past == s.past.(credited := s.past.credited[p.id := 1])
             && (p.user in s.rows ==> s.rows[p.user].id != p.id)
    ensures RowsOk(s.rows, past)
    ensures forall v :: v in s.txns && v != w ==> TxnOk(s.rows, past, s.txns[v])
  {
    var p := s.txns[w].payload;
    assert TxnOk(s.rows, s.past, s.txns[w]);
    forall u | u in s.rows ensures RowOk(past, u, s.rows[u]) {
      assert RowOk(s.past, u, s.rows[u]);
    }
    forall v | v in s.txns && v != w ensures TxnOk(s.rows, past, s.txns[v]) {
      assert TxnOk(s.rows, s.past, s.txns[v]);
      assert Compatible(s.txns[v], s.txns[w]);
    }
  }

  lemma CreditOrphans(s: State, w: WorkerId, t: Txn, past: History)
    requires NoOrphans(s.txns, s.rows, s.past) && w in s.txns && Known(s.past, t.payload)
    requires Compensating(t) && !Compensating(s.txns[w])
    requires past == s.past.(credited := s.past.credited[t.payload.id := 1])
    ensures NoOrphans(s.txns[w := t], s.rows, past)
  {
    var txns := s.txns[w := t];
    forall id | id in past.credited && id in past.confirmed && past.confirmed[id].user !in s.rows
      ensures InFlight(txns, id, past.confirmed[id].user)
    {
      if id == t.payload.id {
        assert w in txns && Accounts(txns[w], id, past.confirmed[id].user);
      } else {
        assert id in s.past.credited;
        StaysInFlight(s.txns, txns, w, id, past.confirmed[id].user);
      }
    }
  }

  /** Replacing one sound transaction by another keeps them all sound. */
  lemma PutTxns(txns: Txns, rows: Table, past: History, w: WorkerId, t: Txn)
    requires TxnOk(rows, past, t)
    requires forall v :: v in txns && v != w ==> TxnOk(rows, past, txns[v])
    ensures TxnsOk(txns[w := t], rows, past)
  {
  }

  /** What crediting its reservation does to the clauses about a resolver's own move. */
  lemma CreditMoves(s: State, w: WorkerId, t: Txn, past: History)
    requires RowsOk(s.rows, s.past) && TxnsOk(s.txns, s.rows, s.past) && LocksOk(s.txns)
    requires NoOrphans(s.txns, s.rows, s.past)
    requires w in s.txns && s.txns[w].stage.ResolveRead?
    requires t == s.txns[w].(stage := ResolveReleased(s.txns[w].stage.found))
    requires s.txns[w].stage.found.None? || s.txns[w].stage.found.value.id != s.txns[w].payload.id
    requires past == s.past.(credited := s.past.credited[t.payload.id := 1])
    ensures RowsOk(s.rows, past) && TxnsOk(s.txns[w := t], s.rows, past)
    ensures LocksOk(s.txns[w := t]) && NoOrphans(s.txns[w := t], s.rows, past)
  {
    assert TxnOk(s.rows, s.past, s.txns[w]);
    CreditKeepsTxns(s, w, past);
    HeldIsUnclaimed(s.txns, w);
    PutLocks(s.txns, w, t);
    PutTxns(s.txns, s.rows, past, w, t);
    CreditOrphans(s, w, t, past);
  }

  /** The compensation inside a resolving transaction. */
  lemma ResolveReleaseKeeps(s: State, w: WorkerId)
    requires Inv(s) && w in s.txns && s.txns[w].stage.ResolveRead?
    requires s.txns[w].stage.found.None? || s.txns[w].stage.found.value.id != s.txns[w].payload.id
    ensures Inv(Move(Release(s, s.txns[w].payload), w, ResolveReleased(s.txns[w].stage.found)))
  {
    var t := s.txns[w].(stage := ResolveReleased(s.txns[w].stage.found));
    assert TxnOk(s.rows, s.past, s.txns[w]);
    ReleaseEffect(s, t.payload);
    CreditMoves(s, w, t, Release(s, t.payload).past);
  }

  // ---------- commits ----------

  /** A committed write does not disturb a transaction that holds no lock in common with the writer. */
  lemma WriteKeepsTxn(rows: Table, past: History, mine: Txn, write: Write, status: Status, t: Txn)
    requires mine.stage == (if status == Persisted then Closing(write) else Settling(write))
    requires WriteOk(rows, past, mine.payload, write, status) && TxnOk(rows, past, t) && Compatible(t, mine)
    ensures TxnOk(Apply(rows, mine.payload.user, write), past, t)
  {
  }

  lemma CommitKeepsTxns(s: State, w: WorkerId, write: Write, status: Status)
    requires TxnsOk(s.txns, s.rows, s.past) && LocksOk(s.txns) && w in s.txns
    requires s.txns[w].stage == (if status == Persisted then Closing(write) else Settling(write))
    requires !write.NoWrite? && WriteOk(s.rows, s.past, s.txns[w].payload, write, status)
    ensures var s' := Commit(s, w, write); TxnsOk(s'.txns, s'.rows, s'.past)
  {
    var s' := Commit(s, w, write);
    forall v | v in s'.txns ensures TxnOk(s'.rows, s'.past, s'.txns[v]) {
      assert TxnOk(s.rows, s.past, s.txns[v]);
      WriteKeepsTxn(s.rows, s.past, s.txns[w], write, status, s.txns[v]);
    }
  }

  lemma CommitKeepsRows(s: State, w: WorkerId, write: Write, status: Status)
    requires RowsOk(s.rows, s.past) && w in s.txns
    requires Known(s.past, s.txns[w].payload)
    requires WriteOk(s.rows, s.past, s.txns[w].payload, write, status)
    ensures RowsOk(Commit(s, w, write).rows, s.past)
  {
    forall u | u in Commit(s, w, write).rows ensures RowOk(s.past, u, Commit(s, w, write).rows[u]) {
      if u in s.rows {
        assert RowOk(s.past, u, s.rows[u]);
      }
    }
  }

  lemma CommitOrphans(s: State, w: WorkerId, write: Write)
    requires NoOrphans(s.txns, s.rows, s.past) && w in s.txns && !write.NoWrite?
    requires Known(s.past, s.txns[w].payload)
    ensures var s' := Commit(s, w, write); NoOrphans(s'.txns, s'.rows, s'.past)
  {
    var s' := Commit(s, w, write);
    forall id | id in s'.past.credited && id in s'.past.confirmed && s'.past.confirmed[id].user !in s'.rows
      ensures InFlight(s'.txns, id, s'.past.confirmed[id].user)
    {
      StaysInFlight(s.txns, s'.txns, w, id, s.past.confirmed[id].user);
    }
  }

  lemma CommitLocks(txns: Txns, w: WorkerId)
    requires LocksOk(txns)
    ensures LocksOk(txns - {w})
  {
  }

  lemma CommitWriteKeeps(s: State, w: WorkerId, write: Write, status: Status)
    requires Inv(s) && w in s.txns && !write.NoWrite?
    requires s.txns[w].stage == (if status == Persisted then Closing(write) else Settling(write))
    requires TxnOk(s.rows, s.past, s.txns[w])
    ensures Inv(Commit(s, w, write))
  {
    CommitKeepsTxns(s, w, write, status);
    CommitKeepsRows(s, w, write, status);
    CommitOrphans(s, w, write);
    CommitLocks(s.txns, w);
  }

  /** A commit without a write is no more than the end of a transaction that could be rolled back. */
  lemma CommitNothing(s: State, w: WorkerId)
    requires w in s.txns && TxnOk(s.rows, s.past, s.txns[w])
    requires s.txns[w].stage == Closing(NoWrite) || s.txns[w].stage == Settling(NoWrite)
    ensures Commit(s, w, NoWrite) == Finish(s, w) && CanRollBack(s, w)
  {
  }

  /** Committing a write touches one user, whom no other transaction has claimed. */
  lemma CommitKeeps(s: State, w: WorkerId, write: Write)
    requires Inv(s) && w in s.txns
    requires s.txns[w].stage == Closing(write) || s.txns[w].stage == Settling(write)
    ensures Inv(Commit(s, w, write))
  {
    assert TxnOk(s.rows, s.past, s.txns[w]);
    if write.NoWrite? {
      CommitNothing(s, w);
      FinishKeeps(s, w);
    } else {
      CommitWriteKeeps(s, w, write, if s.txns[w].stage.Closing? then Persisted else Compensated);
    }
  }

  // ---------- statements ----------

  /** `t` may take the place of worker `w`'s transaction. */
  ghost predicate MayMove(s: State, w: WorkerId, t: Txn)
    requires w in s.txns
  {
    && t.payload == s.txns[w].payload
    && TxnOk(s.rows, s.past, t)
    && Unclaimed(s.txns, w, t)
    && !s.txns[w].stage.Settling?
    && (Compensating(s.txns[w]) ==> Compensating(t) || t.payload.user in s.rows)
  }

  /** The step ends the transaction where that is allowed, or moves it where it may go. */
  ghost predicate Proper(s: State, w: WorkerId, s': State)
    requires w in s.txns
  {
    || (s' == Finish(s, w) && CanRollBack(s, w))
    || (w in s'.txns && s' == Put(s, w, s'.txns[w]) && MayMove(s, w, s'.txns[w]))
  }

  lemma ProperKeeps(s: State, w: WorkerId, s': State)
    requires Inv(s) && w in s.txns && Proper(s, w, s')
    ensures Inv(s')
  {
    if s' == Finish(s, w) && CanRollBack(s, w) {
      FinishKeeps(s, w);
    } else {
      PutKeeps(s, w, s'.txns[w]);
    }
  }

  /**
   * While a persister holds its reservation's lock, no resolver of it is between its
   * compensation and its commit; and if nobody has inserted the user's row, none accounts
   * for the reservation.
   */
  lemma LockExcludesResolver(txns: Txns, w: WorkerId)
    requires LocksOk(txns) && w in txns && txns[w].stage.PersistLocked?
    ensures forall v :: v in txns ==> !Releasing(txns[v], txns[w].payload.id)
    ensures SlotFree(txns, w, txns[w].payload.user) ==> !InFlight(txns, txns[w].payload.id, txns[w].payload.user)
  {
    forall v | v in txns ensures !Releasing(txns[v], txns[w].payload.id) {
      if v != w {
        assert Compatible(txns[v], txns[w]);
      }
    }
  }

  lemma UnaccountedIsUncredited(s: State, p: Payload)
    requires NoOrphans(s.txns, s.rows, s.past) && HistoryOk(s.redis, s.past) && Known(s.past, p)
    requires p.user !in s.rows && !InFlight(s.txns, p.id, p.user)
    ensures s.past.credited[p.id] == 0
  {
  }

  lemma PersistInsertIsProper(s: State, w: WorkerId)
    requires w in s.txns && s.txns[w].stage.PersistLocked? && AdvancePersist(s, w).Some?
    requires TxnOk(s.rows, s.past, s.txns[w]) && Unclaimed(s.txns, w, s.txns[w])
    requires s.txns[w].payload.user !in s.rows ==> s.past.credited[s.txns[w].payload.id] == 0
    ensures Proper(s, w, AdvancePersist(s, w).value)
  {
  }

  lemma PersistCheckIsProper(s: State, w: WorkerId)
    requires w in s.txns && s.txns[w].stage.PersistRead?
    requires TxnOk(s.rows, s.past, s.txns[w]) && Unclaimed(s.txns, w, s.txns[w])
    requires LedgerOk(s.redis, s.past) && HistoryOk(s.redis, s.past)
    ensures Proper(s, w, AdvancePersist(s, w).value)
  {
    var p := s.txns[w].payload;
    if p.user in s.redis.ledger && s.redis.ledger[p.user].id == p.id {
      assert Known(s.past, Payload(p.user, p.id, s.redis.ledger[p.user].at));
      assert Live(s.redis, s.past.confirmed[p.id]);
    }
  }

  /** The steps of `persist` that only take or use a lock. */
  lemma PersistLockIsProper(s: State, w: WorkerId)
    requires w in s.txns && AdvancePersist(s, w).Some?
    requires s.txns[w].stage.PersistBegun? || s.txns[w].stage.PersistConflicted? || s.txns[w].stage.PersistMatched?
    requires TxnOk(s.rows, s.past, s.txns[w]) && Unclaimed(s.txns, w, s.txns[w])
    ensures Proper(s, w, AdvancePersist(s, w).value)
  {
  }

  lemma AdvancePersistKeeps(s: State, w: WorkerId)
    requires Inv(s) && w in s.txns && AdvancePersist(s, w).Some?
    ensures Inv(AdvancePersist(s, w).value)
  {
    var p := s.txns[w].payload;
    assert TxnOk(s.rows, s.past, s.txns[w]);
    HeldIsUnclaimed(s.txns, w);
    if s.txns[w].stage.PersistLocked? {
      if p.user !in s.rows {
        LockExcludesResolver(s.txns, w);
        UnaccountedIsUncredited(s, p);
      }
      PersistInsertIsProper(s, w);
    } else if s.txns[w].stage.PersistRead? {
      PersistCheckIsProper(s, w);
    } else {
      PersistLockIsProper(s, w);
    }
    ProperKeeps(s, w, AdvancePersist(s, w).value);
  }

  /** The row that a resolver has read and locked is known to the history. */
  lemma ResolveReadIsProper(s: State, w: WorkerId)
    requires w in s.txns && s.txns[w].stage.ResolveRead?
    requires s.txns[w].stage.found.Some? && s.txns[w].stage.found.value.id == s.txns[w].payload.id
    requires TxnOk(s.rows, s.past, s.txns[w]) && Unclaimed(s.txns, w, s.txns[w])
    requires RowOk(s.past, s.txns[w].payload.user, s.txns[w].stage.found.value)
    ensures Proper(s, w, AdvanceResolve(s, w).value)
  {
  }

  lemma ResolveReadKeeps(s: State, w: WorkerId)
    requires Inv(s) && w in s.txns && s.txns[w].stage.ResolveRead?
    ensures Inv(AdvanceResolve(s, w).value)
  {
    var t := s.txns[w];
    var found := t.stage.found;
    assert TxnOk(s.rows, s.past, t);
    if found.Some? && found.value.id == t.payload.id {
      HeldIsUnclaimed(s.txns, w);
      assert RowOk(s.past, t.payload.user, found.value);
      ResolveReadIsProper(s, w);
      ProperKeeps(s, w, AdvanceResolve(s, w).value);
    } else {
      ResolveReleaseKeeps(s, w);
    }
  }

  lemma ResolveWriteIsProper(s: State, w: WorkerId)
    requires w in s.txns && s.txns[w].stage.ResolveReleased? && AdvanceResolve(s, w).Some?
    requires TxnOk(s.rows, s.past, s.txns[w]) && Unclaimed(s.txns, w, s.txns[w])
    ensures Proper(s, w, AdvanceResolve(s, w).value)
  {
  }

  /** The steps of `resolveFailed` before the row is read, and the commit of a repeated one. */
  lemma ResolveLockIsProper(s: State, w: WorkerId)
    requires w in s.txns && AdvanceResolve(s, w).Some?
    requires s.txns[w].stage.ResolveBegun? || s.txns[w].stage.ResolveLocked? || s.txns[w].stage.ResolveRepeated?
    requires TxnOk(s.rows, s.past, s.txns[w]) && Unclaimed(s.txns, w, s.txns[w])
    ensures Proper(s, w, AdvanceResolve(s, w).value)
  {
  }

  /** The compensation after the commit repeats one that already took effect. */
  lemma ReleaseAgainIsProper(s: State, w: WorkerId)
    requires w in s.txns && s.txns[w].stage.ReleaseAgain? && TxnOk(s.rows, s.past, s.txns[w])
    requires Conserving(s.redis) && LedgerOk(s.redis, s.past) && HistoryOk(s.redis, s.past)
    ensures Proper(s, w, AdvanceResolve(s, w).value)
  {
    ReleaseEffect(s, s.txns[w].payload);
  }

  lemma AdvanceResolveKeeps(s: State, w: WorkerId)
    requires Inv(s) && w in s.txns && AdvanceResolve(s, w).Some?
    ensures Inv(AdvanceResolve(s, w).value)
  {
    assert TxnOk(s.rows, s.past, s.txns[w]);
    HeldIsUnclaimed(s.txns, w);
    if s.txns[w].stage.ResolveRead? {
      ResolveReadKeeps(s, w);
    } else {
      if s.txns[w].stage.ResolveReleased? {
        ResolveWriteIsProper(s, w);
      } else if s.txns[w].stage.ReleaseAgain? {
        ReleaseAgainIsProper(s, w);
      } else {
        ResolveLockIsProper(s, w);
      }
      ProperKeeps(s, w, AdvanceResolve(s, w).value);
    }
  }

  lemma AdvanceKeeps(s: State, w: WorkerId)
    requires Inv(s) && AdvanceTxn(s, w).Some?
    ensures Inv(AdvanceTxn(s, w).value)
  {
    if s.txns[w].stage.Closing? {
      CommitKeeps(s, w, s.txns[w].stage.pending);
    } else if s.txns[w].stage.Settling? {
      CommitKeeps(s, w, s.txns[w].stage.settled);
    } else if Persisting(s.txns[w].stage) {
      AdvancePersistKeeps(s, w);
    } else {
      AdvanceResolveKeeps(s, w);
    }
  }

  lemma StartKeeps(s: State, w: WorkerId, id: ReservationId, stage: Stage)
    requires Inv(s) && w !in s.txns && id in s.past.confirmed
    requires stage.PersistBegun? || stage.ResolveBegun?
    ensures Inv(Put(s, w, Txn(s.past.confirmed[id], stage)))
  {
    assert s.past.confirmed[id].id == id;
    PutKeeps(s, w, Txn(s.past.confirmed[id], stage));
  }

  // What each action does, apart from what it keeps.

  lemma StartSteps(s: State, w: WorkerId, id: ReservationId)
    requires w !in s.txns && id in s.past.confirmed
    ensures Step(s, StartPersist(w, id)) == Some(Put(s, w, Txn(s.past.confirmed[id], PersistBegun)))
    ensures Step(s, StartResolve(w, id)) == Some(Put(s, w, Txn(s.past.confirmed[id], ResolveBegun)))
  {
  }

  lemma RollbackSteps(s: State, w: WorkerId)
    requires w in s.txns && CanRollBack(s, w)
    ensures Step(s, Rollback(w)) == Some(Finish(s, w))
  {
  }

  lemma AdvanceSteps(s: State, w: WorkerId)
    ensures Step(s, Advance(w)) == AdvanceTxn(s, w)
  {
  }

  lemma Possible(s: State, a: Action)
    requires Step(s, a).Some?
    ensures a.Buy? ==> a.newId !in s.past.confirmed
    ensures a.StartPersist? ==> a.pw !in s.txns && a.pid in s.past.confirmed
    ensures a.StartResolve? ==> a.rw !in s.txns && a.rid in s.past.confirmed
    ensures a.Rollback? ==> a.aborted in s.txns && CanRollBack(s, a.aborted)
  {
  }

  /** Every step of every party keeps the invariant. */
  lemma StepKeeps(s: State, a: Action)
    requires Inv(s) && Step(s, a).Some?
    ensures Inv(Step(s, a).value)
  {
    Possible(s, a);
    match a
    case SeedSale(c) => SeedKeeps(s, c);
    case Buy(user, id, now) => BuyKeeps(s, user, id, now);
    case StartPersist(w, id) =>
      StartSteps(s, w, id);
      StartKeeps(s, w, id, PersistBegun);
    case StartResolve(w, id) =>
      StartSteps(s, w, id);
      StartKeeps(s, w, id, ResolveBegun);
    case Rollback(w) =>
      RollbackSteps(s, w);
      FinishKeeps(s, w);
    case Advance(w) =>
      AdvanceSteps(s, w);
      AdvanceKeeps(s, w);
  }
}

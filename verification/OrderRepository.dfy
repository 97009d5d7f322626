// The two transactions as uninterrupted code, and their place in the order machine.
module OrderRepository {
  import opened Types
  import opened OrderMachine
  import Scripts = SaleScripts
  import SaleStore

  datatype PersistResult = PersistedNow | Idempotent | AlreadyCompensated | PersistThrew

  datatype ResolveResult = ResolvedPersisted | ResolvedCompensated | ResolvedNoop

  /** `persist` when nothing interferes: what it answers and the table it leaves. */
  function PersistSpec(r: Redis, rows: Table, p: Payload): (PersistResult, Table) {
    var written := rows[p.user := Row(p.id, Persisted, p.at)];
    if p.user !in rows then (PersistedNow, written)
    else if rows[p.user].id == p.id then
      (if rows[p.user].status == Persisted then Idempotent else AlreadyCompensated, rows)
    else if rows[p.user].status == Persisted then (PersistThrew, rows)
    else if p.user in r.ledger && !r.ledger[p.user].Garbled? && r.ledger[p.user].id == p.id then
      (PersistedNow, written)
    else (PersistThrew, rows)
  }

  /** `resolveFailed` when nothing interferes: its answer, the Redis keys and the table it leaves. */
  function ResolveSpec(r: Redis, rows: Table, p: Payload): (ResolveResult, Redis, Table) {
    if p.user in rows && rows[p.user].id == p.id && rows[p.user].status == Persisted then
      (ResolvedPersisted, r, rows)
    else
      var (code, r') := Scripts.Compensate(r, p.user, p.id);
      if p.user in rows && rows[p.user].id == p.id then (ResolvedNoop, r', rows)
      else
        (if code == Scripts.Noop then ResolvedNoop else ResolvedCompensated,
         r',
         if p.user in rows && rows[p.user].status == Persisted then rows
         else rows[p.user := Row(p.id, Compensated, p.at)])
  }

  /**
   * What the answer of `persist` means. It does not throw exactly when the user's row
   * afterwards is that of the payload; it has written exactly when the user had no row, or
   * only a compensated one of another reservation while this one is on file.
   */
  lemma PersistMeans(r: Redis, rows: Table, p: Payload)
    ensures var (result, after) := PersistSpec(r, rows, p);
            && (result != PersistThrew <==> p.user in after && after[p.user].id == p.id)
            && (result == PersistedNow <==> after != rows)
            && (result == PersistedNow <==>
                  || p.user !in rows
                  || (rows[p.user].id != p.id && rows[p.user].status == Compensated
                      && (Lookup(r.ledger, p.user) == Some(Timed(p.id, LedgerTime(r, p.user)))
                          || Lookup(r.ledger, p.user) == Some(Bare(p.id)))))
            && (result == PersistedNow ==> after == rows[p.user := Row(p.id, Persisted, p.at)])
            && (result == Idempotent <==> p.user in rows && rows[p.user] == Row(p.id, Persisted, rows[p.user].at))
            && (result == AlreadyCompensated <==>
                  p.user in rows && rows[p.user] == Row(p.id, Compensated, rows[p.user].at))
  {
  }

  function LedgerTime(r: Redis, user: UserId): nat {
    if user in r.ledger && r.ledger[user].Timed? then r.ledger[user].at else 0
  }

  /**
   * What the answer of `resolveFailed` means. A persisted order of the payload is left alone;
   * otherwise the payload is off the ledger, and the user's row is its compensated one unless
   * another order of the user is persisted. It answers that it compensated exactly when it
   * released the unit in the transaction that wrote the row.
   */
  lemma ResolveMeans(r: Redis, rows: Table, p: Payload)
    ensures var (result, r', after) := ResolveSpec(r, rows, p);
            var mine := p.user in rows && rows[p.user].id == p.id;
            && (result == ResolvedPersisted <==> mine && rows[p.user].status == Persisted)
            && (result == ResolvedPersisted ==> r' == r && after == rows)
            && (result != ResolvedPersisted ==>
                  && !(p.user in r'.ledger && r'.ledger[p.user].id == p.id)
                  && (forall u :: u != p.user ==> Lookup(after, u) == Lookup(rows, u))
                  && Lookup(after, p.user)
                     == (if mine || (p.user in rows && rows[p.user].status == Persisted) then Some(rows[p.user])
                         else Some(Row(p.id, Compensated, p.at))))
            && (result == ResolvedCompensated <==>
                  !mine && p.user in r.ledger && r.ledger[p.user].id == p.id && p.user in r.buyers)
  {
  }

  class Repository {
    var rows: Table
    const store: SaleStore.Store

    constructor (rows: Table, store: SaleStore.Store)
      ensures this.rows == rows && this.store == store
    {
      this.rows, this.store := rows, store;
    }

    method Persist(p: Payload) returns (result: PersistResult)
      modifies this
      ensures (result, rows) == PersistSpec(store.State(), old(rows), p)
      ensures result != PersistThrew <==> p.user in rows && rows[p.user].id == p.id
      ensures result == PersistedNow <==> rows != old(rows)
      ensures result == Idempotent <==>
                p.user in old(rows) && old(rows)[p.user].id == p.id && old(rows)[p.user].status == Persisted
    {
      if p.user !in rows {
        rows := rows[p.user := Row(p.id, Persisted, p.at)];
        return PersistedNow;
      }
      var current := rows[p.user];
      if current.id == p.id {
        return if current.status == Persisted then Idempotent else AlreadyCompensated;
      }
      if current.status == Persisted {
        return PersistThrew;
      }
      if p.user !in store.ledger || store.ledger[p.user].Garbled? {
        return PersistThrew;
      }
      if store.ledger[p.user].id != p.id {
        return PersistThrew;
      }
      rows := rows[p.user := Row(p.id, Persisted, p.at)];
      result := PersistedNow;
    }

    method ResolveFailed(p: Payload) returns (result: ResolveResult)
      modifies this, store
      ensures (result, store.State(), rows) == ResolveSpec(old(store.State()), old(rows), p)
      ensures p.user in rows && (rows[p.user].id == p.id || rows[p.user].status == Persisted)
      ensures result == ResolvedPersisted <==>
                p.user in old(rows) && old(rows)[p.user].id == p.id && old(rows)[p.user].status == Persisted
    {
      var compensateAfterCommit := false;
      var current := Lookup(rows, p.user);
      if current.Some? && current.value.id == p.id && current.value.status == Persisted {
        result := ResolvedPersisted;
      } else if current.Some? && current.value.id == p.id {
        compensateAfterCommit := true;
        result := ResolvedNoop;
      } else {
        var code, _ := store.Compensate(p.user, p.id);
        if current.None? {
          rows := rows[p.user := Row(p.id, Compensated, p.at)];
        } else if current.value.status == Compensated {
          rows := rows[p.user := Row(p.id, Compensated, p.at)];
        }
        result := if code == Scripts.Noop then ResolvedNoop else ResolvedCompensated;
      }
      if compensateAfterCommit {
        var _, _ := store.Compensate(p.user, p.id);
      }
    }

    /** `resolveFailed` when an error after the compensation rolls its transaction back. */
    method ResolveRolledBack(p: Payload)
      modifies store
      ensures rows == old(rows)
      ensures store.State() ==
              if p.user in rows && rows[p.user].id == p.id && rows[p.user].status == Persisted then old(store.State())
              else Scripts.Compensate(old(store.State()), p.user, p.id).1
    {
      var current := Lookup(rows, p.user);
      if !(current.Some? && current.value.id == p.id && current.value.status == Persisted) {
        var _, _ := store.Compensate(p.user, p.id);
      }
    }
  }

  // ---------- the same code in the machine ----------

  /** Advances one worker `n` times in a row. */
  function AdvanceTimes(s: State, w: WorkerId, n: nat): Option<State>
    decreases n
  {
    if n == 0 then Some(s) else
    match AdvanceTxn(s, w)
    case None => None
    case Some(next) => AdvanceTimes(next, w, n - 1)
  }

  lemma {:induction false} AdvanceJoins(s: State, w: WorkerId, m: nat, n: nat)
    requires AdvanceTimes(s, w, m).Some?
    ensures AdvanceTimes(s, w, m + n) == AdvanceTimes(AdvanceTimes(s, w, m).value, w, n)
    decreases m
  {
    if m != 0 {
      AdvanceJoins(AdvanceTxn(s, w).value, w, m - 1, n);
    }
  }

  /** The first three statements of a lone persist that meets an existing row. */
  lemma PersistReads(s: State, w: WorkerId, p: Payload)
    requires s.txns == map[] && p.user in s.rows
    ensures AdvanceTimes(Put(s, w, Txn(p, PersistBegun)), w, 3)
         == Some(Put(s, w, Txn(p, PersistRead(s.rows[p.user]))))
  {
    PutOverwrites(s, w);
    var s1 := Put(s, w, Txn(p, PersistLocked));
    var s2 := Put(s, w, Txn(p, PersistConflicted));
    var s3 := Put(s, w, Txn(p, PersistRead(s.rows[p.user])));
    assert AdvanceTxn(Put(s, w, Txn(p, PersistBegun)), w) == Some(s1);
    assert AdvanceTxn(s1, w) == Some(s2);
    assert AdvanceTxn(s2, w) == Some(s3);
    assert AdvanceTimes(s3, w, 0) == Some(s3);
    assert AdvanceTimes(s2, w, 1) == Some(s3);
    assert AdvanceTimes(s1, w, 2) == Some(s3);
  }

  /** The statements a lone persist executes after BEGIN. */
  function PersistSteps(r: Redis, rows: Table, p: Payload): nat {
    if p.user !in rows then 3
    else if rows[p.user].id == p.id then 5
    else if PersistSpec(r, rows, p).0 == PersistedNow then 6
    else 4
  }

  lemma PersistInserts(s: State, w: WorkerId, p: Payload)
    requires s.txns == map[] && p.user !in s.rows
    ensures AdvanceTimes(Put(s, w, Txn(p, PersistBegun)), w, 3)
         == Some(s.(rows := s.rows[p.user := Row(p.id, Persisted, p.at)]))
  {
    PutOverwrites(s, w);
    var begun := Put(s, w, Txn(p, PersistBegun));
    var row := Row(p.id, Persisted, p.at);
    var end := s.(rows := s.rows[p.user := row]);
    assert end.txns - {w} == end.txns;
    var s1 := Put(s, w, Txn(p, PersistLocked));
    var s2 := Put(s, w, Txn(p, Closing(InsertRow(row))));
    assert AdvanceTxn(begun, w) == Some(s1);
    assert AdvanceTxn(s1, w) == Some(s2);
    assert AdvanceTxn(s2, w).value.txns == map[];
    assert AdvanceTxn(s2, w) == Some(end);
    assert AdvanceTimes(s2, w, 1) == Some(end);
    assert AdvanceTimes(s1, w, 2) == Some(end);
  }

  /** A persist that runs alone in the machine leaves the table `PersistSpec` says. */
  lemma PersistAlone(s: State, w: WorkerId, p: Payload)
    requires s.txns == map[]
    ensures AdvanceTimes(Put(s, w, Txn(p, PersistBegun)), w, PersistSteps(s.redis, s.rows, p))
         == Some(s.(rows := PersistSpec(s.redis, s.rows, p).1))
  {
    if p.user !in s.rows {
      PersistInserts(s, w, p);
    } else {
      PersistReads(s, w, p);
      var s3 := Put(s, w, Txn(p, PersistRead(s.rows[p.user])));
      AdvanceJoins(Put(s, w, Txn(p, PersistBegun)), w, 3, PersistSteps(s.redis, s.rows, p) - 3);
      PersistDecides(s, s3, w, p);
    }
  }

  lemma PersistDecides(s: State, s3: State, w: WorkerId, p: Payload)
    requires s.txns == map[] && p.user in s.rows
    requires s3 == Put(s, w, Txn(p, PersistRead(s.rows[p.user])))
    ensures AdvanceTimes(s3, w, PersistSteps(s.redis, s.rows, p) - 3)
         == Some(s.(rows := PersistSpec(s.redis, s.rows, p).1))
  {
    PutOverwrites(s, w);
    var row := Row(p.id, Persisted, p.at);
    var end := s.(rows := PersistSpec(s.redis, s.rows, p).1);
    if s.rows[p.user].id == p.id {
      var s4 := Put(s, w, Txn(p, Closing(NoWrite)));
      assert AdvanceTxn(s3, w) == Some(s4);
      assert AdvanceTxn(s4, w).value.txns == map[];
      assert AdvanceTxn(s4, w) == Some(end);
      assert AdvanceTimes(s4, w, 1) == Some(end);
    } else if PersistSpec(s.redis, s.rows, p).0 == PersistedNow {
      var s4 := Put(s, w, Txn(p, PersistMatched(s.rows[p.user])));
      var s5 := Put(s, w, Txn(p, Closing(UpdateRow(row))));
      assert AdvanceTxn(s3, w) == Some(s4);
      assert AdvanceTxn(s4, w) == Some(s5);
      assert AdvanceTxn(s5, w).value.txns == map[];
      assert AdvanceTxn(s5, w) == Some(end);
      assert AdvanceTimes(s5, w, 1) == Some(end);
      assert AdvanceTimes(s4, w, 2) == Some(end);
    } else {
      assert AdvanceTxn(s3, w).value.txns == map[];
      assert AdvanceTxn(s3, w) == Some(end);
      assert AdvanceTimes(s3, w, 1) == Some(end);
    }
  }

  /** The statements a lone resolve executes after BEGIN. */
  function ResolveSteps(rows: Table, p: Payload): nat {
    if p.user in rows && rows[p.user].id == p.id && rows[p.user].status == Persisted then 4 else 5
  }

  lemma ResolveReads(s: State, w: WorkerId, p: Payload)
    requires s.txns == map[]
    ensures AdvanceTimes(Put(s, w, Txn(p, ResolveBegun)), w, 2)
         == Some(Put(s, w, Txn(p, ResolveRead(Lookup(s.rows, p.user)))))
  {
    PutOverwrites(s, w);
    var s1 := Put(s, w, Txn(p, ResolveLocked));
    var s2 := Put(s, w, Txn(p, ResolveRead(Lookup(s.rows, p.user))));
    assert AdvanceTxn(Put(s, w, Txn(p, ResolveBegun)), w) == Some(s1);
    assert AdvanceTxn(s1, w) == Some(s2);
    assert AdvanceTimes(s2, w, 0) == Some(s2);
    assert AdvanceTimes(s1, w, 1) == Some(s2);
  }

  /** A resolve that runs alone in the machine leaves the keys and the table `ResolveSpec` says. */
  lemma ResolveAlone(s: State, w: WorkerId, p: Payload)
    requires s.txns == map[]
    ensures var (_, r, rows) := ResolveSpec(s.redis, s.rows, p);
            var end := AdvanceTimes(Put(s, w, Txn(p, ResolveBegun)), w, ResolveSteps(s.rows, p));
            && end.Some? && end.value.txns == map[] && end.value.redis == r && end.value.rows == rows
            && end.value.past.confirmed == s.past.confirmed
  {
    ResolveReads(s, w, p);
    AdvanceJoins(Put(s, w, Txn(p, ResolveBegun)), w, 2, ResolveSteps(s.rows, p) - 2);
    var s2 := Put(s, w, Txn(p, ResolveRead(Lookup(s.rows, p.user))));
    if p.user in s.rows && s.rows[p.user].id == p.id {
      ResolveSameIdentity(s, s2, w, p);
    } else {
      ResolveOtherIdentity(s, s2, w, p);
    }
  }

  lemma ResolveSameIdentity(s: State, s2: State, w: WorkerId, p: Payload)
    requires s.txns == map[] && s2 == Put(s, w, Txn(p, ResolveRead(Lookup(s.rows, p.user))))
    requires p.user in s.rows && s.rows[p.user].id == p.id
    ensures var end := AdvanceTimes(s2, w, ResolveSteps(s.rows, p) - 2);
            var released := if s.rows[p.user].status == Persisted then s else Release(s, p);
            end == Some(released)
  {
    PutOverwrites(s, w);
    if s.rows[p.user].status == Persisted {
      var s3 := Put(s, w, Txn(p, Closing(NoWrite)));
      assert AdvanceTxn(s2, w) == Some(s3);
      assert AdvanceTxn(s3, w).value.txns == map[];
      assert AdvanceTxn(s3, w) == Some(s);
      assert AdvanceTimes(s3, w, 1) == Some(s);
    } else {
      var s3 := Put(s, w, Txn(p, ResolveRepeated));
      var s4 := Put(s, w, Txn(p, ReleaseAgain));
      assert AdvanceTxn(s2, w) == Some(s3);
      assert AdvanceTxn(s3, w) == Some(s4);
      assert AdvanceTxn(s4, w).value.txns == map[];
      assert AdvanceTxn(s4, w) == Some(Release(s, p));
      assert AdvanceTimes(s4, w, 1) == Some(Release(s, p));
      assert AdvanceTimes(s3, w, 2) == Some(Release(s, p));
    }
  }

  lemma ResolveOtherIdentity(s: State, s2: State, w: WorkerId, p: Payload)
    requires s.txns == map[] && s2 == Put(s, w, Txn(p, ResolveRead(Lookup(s.rows, p.user))))
    requires !(p.user in s.rows && s.rows[p.user].id == p.id)
    ensures AdvanceTimes(s2, w, 3) == Some(Release(s, p).(rows := ResolveSpec(s.redis, s.rows, p).2))
  {
    PutOverwrites(s, w);
    PutOverwrites(Release(s, p), w);
    ReleaseThenPut(s, p, w, s2.txns[w]);
    var found := Lookup(s.rows, p.user);
    var row := Row(p.id, Compensated, p.at);
    var released := Release(s, p);
    var write := if found.None? then InsertRow(row)
                 else if found.value.status == Persisted then NoWrite
                 else UpdateRow(row);
    var s3 := Put(released, w, Txn(p, ResolveReleased(found)));
    var s4 := Put(released, w, Txn(p, Settling(write)));
    var end := released.(rows := ResolveSpec(s.redis, s.rows, p).2);
    assert AdvanceTxn(s2, w) == Some(s3);
    assert AdvanceTxn(s3, w) == Some(s4);
    assert AdvanceTxn(s4, w).value.txns == map[];
    assert AdvanceTxn(s4, w) == Some(end);
    assert AdvanceTimes(s4, w, 1) == Some(end);
    assert AdvanceTimes(s3, w, 2) == Some(end);
  }
}

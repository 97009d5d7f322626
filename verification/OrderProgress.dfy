// Waiting and progress in the order machine.
//
// A transaction waits only for a lock that another open transaction holds, some transaction
// can always go on, and each of them ends after a bounded number of its own steps. Apart
// from waiting, a step does what it would do if its transaction were alone.
module OrderProgress {
  import opened Types
  import opened OrderMachine

  type Txns = map<WorkerId, Txn>

  /** Another transaction holds the advisory lock of the reservation. */
  predicate ReservationTaken(txns: Txns, w: WorkerId, id: ReservationId) {
    exists v :: v in txns && v != w && HoldsReservation(txns[v]) && txns[v].payload.id == id
  }

  predicate RowTaken(txns: Txns, w: WorkerId, user: UserId) {
    exists v :: v in txns && v != w && HoldsRow(txns[v]) && txns[v].payload.user == user
  }

  predicate SlotTaken(txns: Txns, w: WorkerId, user: UserId) {
    exists v :: v in txns && v != w && HoldsSlot(txns[v]) && txns[v].payload.user == user
  }

  /** What the transaction's next statement waits for. */
  predicate Waits(s: State, w: WorkerId)
    requires w in s.txns
  {
    var p := s.txns[w].payload;
    match s.txns[w].stage
    case PersistBegun => ReservationTaken(s.txns, w, p.id)
    case ResolveBegun => ReservationTaken(s.txns, w, p.id)
    case PersistLocked => SlotTaken(s.txns, w, p.user)
    case PersistConflicted => RowTaken(s.txns, w, p.user)
    case ResolveLocked => p.user in s.rows && RowTaken(s.txns, w, p.user)
    case ResolveReleased(kept) => kept.None? && SlotTaken(s.txns, w, p.user)
    case _ => false
  }

  /** A transaction is held up exactly by a lock that it needs next and another one holds. */
  lemma BlockedIff(s: State, w: WorkerId)
    requires w in s.txns
    ensures AdvanceTxn(s, w).None? <==> Waits(s, w)
  {
    var p := s.txns[w].payload;
    assert ReservationFree(s.txns, w, p.id) <==> !ReservationTaken(s.txns, w, p.id);
    assert SlotFree(s.txns, w, p.user) <==> !SlotTaken(s.txns, w, p.user);
    assert RowFree(s.txns, w, p.user) <==> !RowTaken(s.txns, w, p.user);
  }

  /** Whoever has inserted a row or locked one waits for nobody. */
  lemma HoldersGoOn(s: State, v: WorkerId)
    requires v in s.txns && (HoldsSlot(s.txns[v]) || HoldsRow(s.txns[v]))
    ensures AdvanceTxn(s, v).Some?
  {
    BlockedIff(s, v);
  }

  /** No deadlock: behind every waiting transaction there is one that can go on, two locks away at most. */
  lemma SomeoneGoesOn(s: State, w: WorkerId) returns (v: WorkerId)
    requires w in s.txns
    ensures v in s.txns && AdvanceTxn(s, v).Some?
  {
    v := w;
    BlockedIff(s, v);
    if AdvanceTxn(s, v).None? && (s.txns[v].stage.PersistBegun? || s.txns[v].stage.ResolveBegun?) {
      v :| v in s.txns && v != w && HoldsReservation(s.txns[v]) && s.txns[v].payload.id == s.txns[w].payload.id;
      BlockedIff(s, v);
    }
    if AdvanceTxn(s, v).None? {
      v := LockHolder(s, v);
    }
  }

  lemma LockHolder(s: State, w: WorkerId) returns (v: WorkerId)
    requires w in s.txns && Waits(s, w) && HoldsReservation(s.txns[w])
    ensures v in s.txns && AdvanceTxn(s, v).Some?
  {
    var user := s.txns[w].payload.user;
    v :| v in s.txns && v != w && (HoldsSlot(s.txns[v]) || HoldsRow(s.txns[v])) && s.txns[v].payload.user == user;
    HoldersGoOn(s, v);
  }

  /** How many more steps a transaction can take at most. */
  function StepsLeft(stage: Stage): nat {
    match stage
    case PersistBegun => 6
    case PersistLocked => 5
    case PersistConflicted => 4
    case PersistRead(_) => 3
    case PersistMatched(_) => 2
    case ResolveBegun => 5
    case ResolveLocked => 4
    case ResolveRead(_) => 3
    case ResolveReleased(_) => 2
    case ResolveRepeated => 2
    case ReleaseAgain => 1
    case Closing(_) => 1
    case Settling(_) => 1
  }

  /** Where `persist` goes from here, or `None` when it ends without a commit. */
  function PersistGoes(r: Redis, rows: Table, t: Txn): Option<Stage> {
    var p := t.payload;
    match t.stage
    case PersistBegun => Some(PersistLocked)
    case PersistLocked =>
      Some(if p.user in rows then PersistConflicted else Closing(InsertRow(Row(p.id, Persisted, p.at))))
    case PersistConflicted => if p.user in rows then Some(PersistRead(rows[p.user])) else None
    case PersistRead(row) =>
      if row.id == p.id then Some(Closing(NoWrite))
      else if row.status == Compensated && p.user in r.ledger && !r.ledger[p.user].Garbled?
              && r.ledger[p.user].id == p.id
      then Some(PersistMatched(row))
      else None
    case PersistMatched(row) =>
      if p.user in rows && rows[p.user].id == row.id && rows[p.user].status == Compensated
      then Some(Closing(UpdateRow(Row(p.id, Persisted, p.at)))) else None
    case _ => None
  }

  lemma PersistGoesThere(s: State, w: WorkerId)
    requires w in s.txns && AdvancePersist(s, w).Some?
    ensures var next := PersistGoes(s.redis, s.rows, s.txns[w]);
            AdvancePersist(s, w) == Some(if next.Some? then Move(s, w, next.value) else Finish(s, w))
  {
  }

  /** Whether the resolver's next step compensates. */
  predicate Releases(t: Txn) {
    t.stage.ReleaseAgain?
    || (t.stage.ResolveRead? && !(t.stage.found.Some? && t.stage.found.value.id == t.payload.id))
  }

  function ResolveGoes(rows: Table, t: Txn): Option<Stage> {
    var p := t.payload;
    match t.stage
    case ResolveBegun => Some(ResolveLocked)
    case ResolveLocked => Some(ResolveRead(Lookup(rows, p.user)))
    case ResolveRead(found) =>
      if Releases(t) then Some(ResolveReleased(found))
      else if found.value.status == Persisted then Some(Closing(NoWrite))
      else Some(ResolveRepeated)
    case ResolveReleased(kept) =>
      var row := Row(p.id, Compensated, p.at);
      if kept.None? then (if p.user in rows then None else Some(Settling(InsertRow(row))))
      else if kept.value.status == Persisted then Some(Settling(NoWrite))
      else if p.user in rows && rows[p.user].id == kept.value.id && rows[p.user].status == Compensated
      then Some(Settling(UpdateRow(row)))
      else None
    case ResolveRepeated => Some(ReleaseAgain)
    case _ => None
  }

  lemma ResolveGoesThere(s: State, w: WorkerId)
    requires w in s.txns && AdvanceResolve(s, w).Some?
    ensures var t := s.txns[w];
            var from, next := if Releases(t) then Release(s, t.payload) else s, ResolveGoes(s.rows, t);
            AdvanceResolve(s, w) == Some(if next.Some? then Move(from, w, next.value) else Finish(from, w))
  {
  }

  /** Every step of a transaction brings it nearer to its end and leaves the others alone. */
  lemma StepsRunOut(s: State, w: WorkerId)
    requires w in s.txns && AdvanceTxn(s, w).Some?
    ensures var s' := AdvanceTxn(s, w).value;
            && (w in s'.txns ==>
                  s'.txns[w].payload == s.txns[w].payload && StepsLeft(s'.txns[w].stage) < StepsLeft(s.txns[w].stage))
            && s'.txns - {w} == s.txns - {w}
  {
    if Persisting(s.txns[w].stage) {
      PersistGoesThere(s, w);
    } else if !s.txns[w].stage.Closing? && !s.txns[w].stage.Settling? {
      ResolveGoesThere(s, w);
    }
  }

  /** The state with this transaction only. */
  function Alone(s: State, w: WorkerId): State
    requires w in s.txns
  {
    s.(txns := map[w := s.txns[w]])
  }

  /** The same step to Redis, the table, the history and the transaction itself. */
  predicate SameStep(s: State, w: WorkerId, s': State, alone: State) {
    && s'.redis == alone.redis && s'.rows == alone.rows && s'.past == alone.past
    && Lookup(s'.txns, w) == Lookup(alone.txns, w)
  }

  lemma PersistAsIfAlone(s: State, w: WorkerId)
    requires w in s.txns && AdvancePersist(s, w).Some? && AdvancePersist(Alone(s, w), w).Some?
    ensures SameStep(s, w, AdvancePersist(s, w).value, AdvancePersist(Alone(s, w), w).value)
  {
    PersistGoesThere(s, w);
    PersistGoesThere(Alone(s, w), w);
  }

  lemma ResolveAsIfAlone(s: State, w: WorkerId)
    requires w in s.txns && AdvanceResolve(s, w).Some? && AdvanceResolve(Alone(s, w), w).Some?
    ensures SameStep(s, w, AdvanceResolve(s, w).value, AdvanceResolve(Alone(s, w), w).value)
  {
    ResolveGoesThere(s, w);
    ResolveGoesThere(Alone(s, w), w);
  }

  /** Apart from waiting, a step does to Redis, the table and its transaction what it would do alone. */
  lemma StepsAsIfAlone(s: State, w: WorkerId)
    requires w in s.txns && AdvanceTxn(s, w).Some?
    ensures AdvanceTxn(Alone(s, w), w).Some?
    ensures SameStep(s, w, AdvanceTxn(s, w).value, AdvanceTxn(Alone(s, w), w).value)
  {
    BlockedIff(Alone(s, w), w);
    if Persisting(s.txns[w].stage) {
      PersistAsIfAlone(s, w);
    } else if !s.txns[w].stage.Closing? && !s.txns[w].stage.Settling? {
      ResolveAsIfAlone(s, w);
    }
  }
}

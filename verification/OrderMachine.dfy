// Persisting and resolving orders as a machine of interleaved transactions.
//
// Every action is one atomic step of one party: a Redis script, one SQL statement, or a
// COMMIT. A worker may start either transaction for any payload that was ever confirmed,
// any number of times and at any moment, which covers every redelivery a queue can make.
module OrderMachine {
  import opened Types
  import opened SaleScripts

  type WorkerId = nat

  /** What a transaction has written but not committed. */
  datatype Write = NoWrite | InsertRow(inserted: Row) | UpdateRow(updated: Row)

  /** How far a transaction has got. */
  datatype Stage =
    | PersistBegun
    | PersistLocked
    | PersistConflicted
    | PersistRead(seen: Row)
    | PersistMatched(stale: Row)
    | ResolveBegun
    | ResolveLocked
    | ResolveRead(found: Option<Row>)
    | ResolveReleased(kept: Option<Row>)
    | ResolveRepeated
    | ReleaseAgain
    | Closing(pending: Write)    // ready to COMMIT, Redis not touched
    | Settling(settled: Write)   // ready to COMMIT, Redis already compensated

  datatype Txn = Txn(payload: Payload, stage: Stage)

  /** Every payload that was confirmed, and how often each reservation was given back to stock. */
  datatype History = History(confirmed: map<ReservationId, Payload>, credited: multiset<ReservationId>)

  /** Redis, the committed orders table, the open transactions, and the history so far. */
  datatype State = State(redis: Redis, rows: Table, txns: map<WorkerId, Txn>, past: History)

  datatype Action =
    | SeedSale(c: Config)
    | Buy(user: UserId, newId: ReservationId, now: nat)
    | StartPersist(pw: WorkerId, pid: ReservationId)
    | StartResolve(rw: WorkerId, rid: ReservationId)
    | Advance(w: WorkerId)
    | Rollback(aborted: WorkerId)

  const INITIAL := State(EMPTY, map[], map[], History(map[], multiset{}))

  /** Holds the transaction-scoped advisory lock of its reservation. */
  predicate HoldsReservation(t: Txn) {
    !t.stage.PersistBegun? && !t.stage.ResolveBegun? && !t.stage.ReleaseAgain?
  }

  /** Holds the row lock of its user, taken by SELECT ... FOR UPDATE. */
  predicate HoldsRow(t: Txn) {
    match t.stage
    case PersistRead(_) => true
    case PersistMatched(_) => true
    case ResolveRead(found) => found.Some?
    case ResolveReleased(kept) => kept.Some?
    case ResolveRepeated => true
    case Closing(write) => !write.InsertRow?
    case Settling(write) => !write.InsertRow?
    case _ => false
  }

  /** Has inserted a row that is not committed, so others wait on the unique index. */
  predicate HoldsSlot(t: Txn) {
    (t.stage.Closing? && t.stage.pending.InsertRow?) || (t.stage.Settling? && t.stage.settled.InsertRow?)
  }

  predicate ReservationFree(txns: map<WorkerId, Txn>, w: WorkerId, id: ReservationId) {
    forall v :: v in txns && v != w && HoldsReservation(txns[v]) ==> txns[v].payload.id != id
  }

  predicate RowFree(txns: map<WorkerId, Txn>, w: WorkerId, user: UserId) {
    forall v :: v in txns && v != w && HoldsRow(txns[v]) ==> txns[v].payload.user != user
  }

  predicate SlotFree(txns: map<WorkerId, Txn>, w: WorkerId, user: UserId) {
    forall v :: v in txns && v != w && HoldsSlot(txns[v]) ==> txns[v].payload.user != user
  }

  function Put(s: State, w: WorkerId, t: Txn): State {
    s.(txns := s.txns[w := t])
  }

  lemma PutOverwrites(s: State, w: WorkerId)
    ensures forall t, u :: Put(Put(s, w, t), w, u) == Put(s, w, u)
  {
    forall t, u ensures Put(Put(s, w, t), w, u) == Put(s, w, u) {
      assert s.txns[w := t][w := u] == s.txns[w := u];
    }
  }

  function Move(s: State, w: WorkerId, stage: Stage): State
    requires w in s.txns
  {
    Put(s, w, s.txns[w].(stage := stage))
  }

  function Finish(s: State, w: WorkerId): State {
    s.(txns := s.txns - {w})
  }

  /** Runs compensate.lua and records a unit that was given back. */
  function Release(s: State, p: Payload): State {
    var (code, redis) := Compensate(s.redis, p.user, p.id);
    s.(redis := redis,
       past := if code == Released then s.past.(credited := s.past.credited + multiset{p.id}) else s.past)
  }

  lemma ReleaseThenPut(s: State, p: Payload, w: WorkerId, t: Txn)
    ensures Release(Put(s, w, t), p) == Put(Release(s, p), w, t)
  {
  }

  function Apply(rows: Table, user: UserId, write: Write): Table {
    match write
    case NoWrite => rows
    case InsertRow(row) => rows[user := row]
    case UpdateRow(row) => rows[user := row]
  }

  function Commit(s: State, w: WorkerId, write: Write): State
    requires w in s.txns
  {
    Finish(s.(rows := Apply(s.rows, s.txns[w].payload.user, write)), w)
  }

  /** The next statement of `persist`; `None` while it waits on a lock. */
  function AdvancePersist(s: State, w: WorkerId): Option<State>
    requires w in s.txns
  {
    var p := s.txns[w].payload;
    match s.txns[w].stage
    case PersistBegun =>
      if ReservationFree(s.txns, w, p.id) then Some(Move(s, w, PersistLocked)) else None
    case PersistLocked =>
      // INSERT ... ON CONFLICT (user_id) DO NOTHING
      if !SlotFree(s.txns, w, p.user) then None
      else if p.user in s.rows then Some(Move(s, w, PersistConflicted))
      else Some(Move(s, w, Closing(InsertRow(Row(p.id, Persisted, p.at)))))
    case PersistConflicted =>
      if !RowFree(s.txns, w, p.user) then None
      else if p.user !in s.rows then Some(Finish(s, w))
      else Some(Move(s, w, PersistRead(s.rows[p.user])))
    case PersistRead(row) =>
      if row.id == p.id then Some(Move(s, w, Closing(NoWrite)))
      else if row.status == Persisted then Some(Finish(s, w))
      else if p.user in s.redis.ledger && !s.redis.ledger[p.user].Garbled?
              && s.redis.ledger[p.user].id == p.id
      then Some(Move(s, w, PersistMatched(row)))
      else Some(Finish(s, w))
    case PersistMatched(row) =>
      // UPDATE ... WHERE user_id AND id AND status = 'compensated'
      if p.user in s.rows && s.rows[p.user].id == row.id && s.rows[p.user].status == Compensated
      then Some(Move(s, w, Closing(UpdateRow(Row(p.id, Persisted, p.at)))))
      else Some(Finish(s, w))
    case _ => None
  }

  /** The next statement of `resolveFailed`; `None` while it waits on a lock. */
  function AdvanceResolve(s: State, w: WorkerId): Option<State>
    requires w in s.txns
  {
    var p := s.txns[w].payload;
    match s.txns[w].stage
    case ResolveBegun =>
      if ReservationFree(s.txns, w, p.id) then Some(Move(s, w, ResolveLocked)) else None
    case ResolveLocked =>
      if p.user !in s.rows then Some(Move(s, w, ResolveRead(None)))
      else if !RowFree(s.txns, w, p.user) then None
      else Some(Move(s, w, ResolveRead(Some(s.rows[p.user]))))
    case ResolveRead(found) =>
      if found.Some? && found.value.id == p.id then
        Some(Move(s, w, if found.value.status == Persisted then Closing(NoWrite) else ResolveRepeated))
      else Some(Move(Release(s, p), w, ResolveReleased(found)))
    case ResolveReleased(kept) =>
      (match kept
       case None =>
         // INSERT without ON CONFLICT: a committed row fails the unique index
         if !SlotFree(s.txns, w, p.user) then None
         else if p.user in s.rows then Some(Finish(s, w))
         else Some(Move(s, w, Settling(InsertRow(Row(p.id, Compensated, p.at)))))
       case Some(row) =>
         if row.status == Persisted then Some(Move(s, w, Settling(NoWrite)))
         else if p.user in s.rows && s.rows[p.user].id == row.id && s.rows[p.user].status == Compensated
         then Some(Move(s, w, Settling(UpdateRow(Row(p.id, Compensated, p.at)))))
         else Some(Finish(s, w)))
    case ResolveRepeated => Some(Move(s, w, ReleaseAgain))
    case ReleaseAgain => Some(Finish(Release(s, p), w))
    case _ => None
  }

  predicate Persisting(stage: Stage) {
    || stage.PersistBegun? || stage.PersistLocked? || stage.PersistConflicted?
    || stage.PersistRead? || stage.PersistMatched?
  }

  /** The next statement or COMMIT of one open transaction. */
  function AdvanceTxn(s: State, w: WorkerId): Option<State> {
    if w !in s.txns then None
    else if s.txns[w].stage.Closing? then Some(Commit(s, w, s.txns[w].stage.pending))
    else if s.txns[w].stage.Settling? then Some(Commit(s, w, s.txns[w].stage.settled))
    else if Persisting(s.txns[w].stage) then AdvancePersist(s, w)
    else AdvanceResolve(s, w)
  }

  /** Has compensated inside its transaction. */
  predicate Compensating(t: Txn) {
    t.stage.ResolveReleased? || t.stage.Settling?
  }

  /** Has compensated and inserted the user's row, and only needs to commit. */
  predicate Inserting(t: Txn, user: UserId) {
    t.payload.user == user && t.stage.Settling? && t.stage.settled.InsertRow?
  }

  predicate RowComing(txns: map<WorkerId, Txn>, w: WorkerId, user: UserId) {
    exists v :: v in txns && v != w && Inserting(txns[v], user)
  }

  /**
   * A transaction may be rolled back at any time until it has compensated; after that, only
   * if its user has a committed row or another resolver is about to commit one.
   */
  predicate CanRollBack(s: State, w: WorkerId)
    requires w in s.txns
  {
    Compensating(s.txns[w]) ==>
      s.txns[w].payload.user in s.rows || RowComing(s.txns, w, s.txns[w].payload.user)
  }

  /** One step of the system, or `None` when the action is not possible now. */
  function Step(s: State, a: Action): Option<State> {
    match a
    case SeedSale(c) => Some(s.(redis := Seed(s.redis, c, c.total).1))
    case Buy(user, id, now) =>
      if id in s.past.confirmed then None else
      var (reply, redis) := Purchase(s.redis, user, id, now);
      Some(s.(redis := redis,
              past := if reply.code == Confirmed
                      then s.past.(confirmed := s.past.confirmed[id := Payload(user, id, now)])
                      else s.past))
    case StartPersist(w, id) =>
      if w in s.txns || id !in s.past.confirmed then None
      else Some(Put(s, w, Txn(s.past.confirmed[id], PersistBegun)))
    case StartResolve(w, id) =>
      if w in s.txns || id !in s.past.confirmed then None
      else Some(Put(s, w, Txn(s.past.confirmed[id], ResolveBegun)))
    case Advance(w) => AdvanceTxn(s, w)
    case Rollback(w) =>
      if w in s.txns && CanRollBack(s, w) then Some(Finish(s, w)) else None
  }

  /** A whole run; `None` if some action was not possible when its turn came. */
  function Run(s: State, actions: seq<Action>): Option<State>
    decreases |actions|
  {
    if actions == [] then Some(s) else
    match Step(s, actions[0])
    case None => None
    case Some(next) => Run(next, actions[1..])
  }

  /** The same system when any open transaction may be rolled back at any time. */
  function StepFreely(s: State, a: Action): Option<State> {
    match a
    case Rollback(w) => if w in s.txns then Some(Finish(s, w)) else None
    case _ => Step(s, a)
  }

  function RunFreely(s: State, actions: seq<Action>): Option<State>
    decreases |actions|
  {
    if actions == [] then Some(s) else
    match StepFreely(s, actions[0])
    case None => None
    case Some(next) => RunFreely(next, actions[1..])
  }
}

// The Lua scripts of the sale as atomic state transformers on the four Redis keys.
// Each script is one Redis serialization point, so it is one function here.
module SaleScripts {
  import opened Types

  datatype PurchaseCode =
    | NotInitialized | SaleNotStarted | SaleEnded | AlreadyPurchased | SoldOut | Confirmed

  datatype PurchaseReply = PurchaseReply(code: PurchaseCode, stock: int, now: nat, id: Option<ReservationId>)

  datatype CompensateCode = Released | ReleasedCapped | Noop

  datatype SeedCode = Seeded | AlreadySeeded | ConfigDrift | StockMissing

  datatype RestoreCode = Restored | AlreadyMatched | Conflict

  datatype StockCode = StockReconciled | StockNotInitialized | Overcommitted

  datatype Membership = Both | Neither | BuyerOnly | ReservationOnly

  const EMPTY := Redis(None, None, {}, map[])

  /** `tonumber(GET stock or '0')`. */
  function StockOrZero(r: Redis): int {
    if r.stock.Some? then r.stock.value else 0
  }

  function Seed(r: Redis, c: Config, stock: int): (SeedCode, Redis) {
    match r.config
    case Some(current) =>
      if r.stock.None? then (StockMissing, r)
      else if current != c then (ConfigDrift, r)
      else (AlreadySeeded, r)
    case None => (Seeded, r.(config := Some(c), stock := Some(stock)))
  }

  function Purchase(r: Redis, user: UserId, id: ReservationId, now: nat): (PurchaseReply, Redis) {
    if r.config.None? then (PurchaseReply(NotInitialized, -1, now, None), r) else
    var c := r.config.value;
    var stock := if StockOrZero(r) < 0 then 0 else StockOrZero(r);
    if now < c.startsAtMs then (PurchaseReply(SaleNotStarted, stock, now, None), r)
    else if now >= c.endsAtMs then (PurchaseReply(SaleEnded, stock, now, None), r)
    else if user in r.buyers || user in r.ledger then
      (PurchaseReply(AlreadyPurchased, stock, now, None), r.(buyers := r.buyers + {user}))
    else if stock <= 0 then (PurchaseReply(SoldOut, 0, now, None), r)
    else
      (PurchaseReply(Confirmed, stock - 1, now, Some(id)),
       r.(stock := Some(stock - 1), buyers := r.buyers + {user}, ledger := r.ledger[user := Timed(id, now)]))
  }

  function Compensate(r: Redis, user: UserId, id: ReservationId): (CompensateCode, Redis) {
    if user !in r.ledger || r.ledger[user].id != id then (Noop, r) else
    var cleared := r.(ledger := r.ledger - {user}, buyers := r.buyers - {user});
    if user !in r.buyers then (Noop, cleared)
    else if r.config.Some? && StockOrZero(r) >= r.config.value.total then (ReleasedCapped, cleared)
    else (Released, cleared.(stock := Some(StockOrZero(r) + 1)))
  }

  function CompareRestore(r: Redis, p: Payload): (RestoreCode, Redis) {
    if p.user !in r.ledger then
      (Restored, r.(ledger := r.ledger[p.user := Timed(p.id, p.at)], buyers := r.buyers + {p.user}))
    else if r.ledger[p.user].id == p.id then (AlreadyMatched, r.(buyers := r.buyers + {p.user}))
    else (Conflict, r)
  }

  function ReconcileMembership(r: Redis, user: UserId): (bool, Redis) {
    if user in r.ledger then (true, r.(buyers := r.buyers + {user}))
    else (false, r.(buyers := r.buyers - {user}))
  }

  function ReconcileStock(r: Redis): (StockCode, Redis) {
    if r.config.None? then (StockNotInitialized, r)
    else if |r.ledger| > r.config.value.total then (Overcommitted, r)
    else (StockReconciled, r.(stock := Some(r.config.value.total - |r.ledger|)))
  }

  function Inspect(r: Redis, user: UserId): Membership {
    if user in r.buyers && user in r.ledger then Both
    else if user !in r.buyers && user !in r.ledger then Neither
    else if user in r.buyers then BuyerOnly
    else ReservationOnly
  }

  /** Every ledger value is stamped inside the sale window. */
  ghost predicate InWindow(r: Redis) {
    r.config.Some? &&
    forall u :: u in r.ledger ==>
      r.ledger[u].Timed? && r.config.value.startsAtMs <= r.ledger[u].at < r.config.value.endsAtMs
  }

  /** Stock, buyers and ledger agree with each other and with the configured total. */
  ghost predicate Conserving(r: Redis) {
    match r.config
    case None => r == EMPTY
    case Some(c) =>
      && r.stock == Some(c.total - |r.ledger|)
      && |r.ledger| <= c.total
      && r.buyers == r.ledger.Keys
      && InWindow(r)
  }

  /** Stock, buyers and ledger agree, whatever the ledger's values are. */
  ghost predicate Balanced(r: Redis) {
    && r.config.Some?
    && r.stock == Some(r.config.value.total - |r.ledger|)
    && |r.ledger| <= r.config.value.total
    && r.buyers == r.ledger.Keys
  }
}

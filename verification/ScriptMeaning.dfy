// What the scripts promise on any keys at all, damaged ones included.
//
// `SaleRefinement` speaks of balanced keys. Recovery starts from keys that may disagree with
// each other, and the scripts still have to be safe on them.
module ScriptMeaning {
  import opened Types
  import opened SaleScripts

  /** `GET stock`, with a missing key read as zero. */
  function Units(r: Redis): int {
    match r.stock
    case None => 0
    case Some(n) => n
  }

  predicate InsideWindow(c: Config, now: int) {
    c.startsAtMs <= now && now < c.endsAtMs
  }

  // ---------- purchase ----------

  /** On any keys, a unit is granted exactly inside the window, to a stranger to both keys, while stock lasts. */
  lemma ConfirmedIff(r: Redis, user: UserId, id: ReservationId, now: nat)
    ensures Purchase(r, user, id, now).0.code == Confirmed <==>
              && r.config.Some? && InsideWindow(r.config.value, now)
              && user !in r.buyers && user !in r.ledger
              && Units(r) >= 1
  {
  }

  /** Every refusal has its own cause, in the order in which the script looks for it. */
  lemma RefusedIff(r: Redis, user: UserId, id: ReservationId, now: nat)
    ensures var code := Purchase(r, user, id, now).0.code;
            && (code == NotInitialized <==> r.config.None?)
            && (code == SaleNotStarted <==> r.config.Some? && now < r.config.value.startsAtMs)
            && (code == SaleEnded <==>
                  r.config.Some? && r.config.value.startsAtMs <= now && r.config.value.endsAtMs <= now)
            && (code == AlreadyPurchased <==>
                  r.config.Some? && InsideWindow(r.config.value, now) && (user in r.buyers || user in r.ledger))
            && (code == SoldOut <==>
                  && r.config.Some? && InsideWindow(r.config.value, now)
                  && user !in r.buyers && user !in r.ledger && Units(r) <= 0)
  {
  }

  /** Each key after a purchase: only a confirmation spends stock and writes the ledger. */
  lemma PurchaseWrites(r: Redis, user: UserId, id: ReservationId, now: nat)
    ensures var (reply, r') := Purchase(r, user, id, now);
            && r'.config == r.config
            && Lookup(r'.ledger, user)
               == (if reply.code == Confirmed then Some(Timed(id, now)) else Lookup(r.ledger, user))
            && (forall u :: u != user ==> Lookup(r'.ledger, u) == Lookup(r.ledger, u))
            && (forall u :: u in r'.buyers <==>
                  u in r.buyers || (u == user && (reply.code == Confirmed || reply.code == AlreadyPurchased)))
            && (reply.code != Confirmed ==> r'.stock == r.stock)
            && (reply.code == Confirmed ==> Units(r') == Units(r) - 1 && r'.stock.Some?)
  {
  }

  /** The reply's numbers: never a negative stock, the stock that is left, and the granted id. */
  lemma PurchaseReplies(r: Redis, user: UserId, id: ReservationId, now: nat)
    ensures var (reply, r') := Purchase(r, user, id, now);
            && reply.now == now
            && reply.id == (if reply.code == Confirmed then Some(id) else None)
            && (r.config.None? ==> reply.stock == -1)
            && (r.config.Some? ==> reply.stock == (if Units(r') > 0 then Units(r') else 0))
  {
  }

  // ---------- compensate ----------

  predicate OnFile(r: Redis, user: UserId, id: ReservationId) {
    user in r.ledger && r.ledger[user].id == id
  }

  /** Each key after a compensation: nothing without a match, and then never more than the total. */
  lemma CompensateWrites(r: Redis, user: UserId, id: ReservationId)
    ensures var r' := Compensate(r, user, id).1;
            && (!OnFile(r, user, id) ==> r' == r)
            && (OnFile(r, user, id) ==>
                  && r'.config == r.config
                  && user !in r'.ledger && user !in r'.buyers
                  && (forall u :: u != user ==>
                        Lookup(r'.ledger, u) == Lookup(r.ledger, u) && (u in r'.buyers <==> u in r.buyers)))
  {
  }

  /** A unit goes back exactly when a buyer's own reservation is released and the sale is not full. */
  lemma CreditedIff(r: Redis, user: UserId, id: ReservationId)
    ensures var (code, r') := Compensate(r, user, id);
            var room := r.config.None? || Units(r) < r.config.value.total;
            && (code == Released <==> OnFile(r, user, id) && user in r.buyers && room)
            && (code == ReleasedCapped <==> OnFile(r, user, id) && user in r.buyers && !room)
            && (code == Released ==> Units(r') == Units(r) + 1)
            && (code != Released ==> r'.stock == r.stock)
  {
  }

  /** Compensating again does nothing, whatever the keys. */
  lemma CompensateOnce(r: Redis, user: UserId, id: ReservationId)
    ensures var r' := Compensate(r, user, id).1; Compensate(r', user, id) == (Noop, r')
  {
  }

  /** Compensations alone never lift the stock above the total. */
  lemma NeverOverfilled(r: Redis, user: UserId, id: ReservationId)
    requires r.config.Some? && Units(r) <= r.config.value.total
    ensures Units(Compensate(r, user, id).1) <= r.config.value.total
  {
  }

  // ---------- the recovery scripts ----------

  /** A restore gives an entry only to a user without one, and makes every matching user a buyer. */
  lemma CompareRestoreMeans(r: Redis, p: Payload)
    ensures var (code, r') := CompareRestore(r, p);
            && (code == Restored <==> p.user !in r.ledger)
            && (code == AlreadyMatched <==> OnFile(r, p.user, p.id))
            && Lookup(r'.ledger, p.user)
               == (if p.user in r.ledger then Some(r.ledger[p.user]) else Some(Timed(p.id, p.at)))
            && (p.user in r'.buyers <==> p.user in r.buyers || code != Conflict)
            && (forall u :: u != p.user ==>
                  Lookup(r'.ledger, u) == Lookup(r.ledger, u) && (u in r'.buyers <==> u in r.buyers))
            && r'.config == r.config && r'.stock == r.stock
  {
  }

  /** Alignment makes one user's membership what the ledger says, and does nothing else. */
  lemma MembershipMeans(r: Redis, user: UserId)
    ensures var (present, r') := ReconcileMembership(r, user);
            && (present <==> user in r.ledger)
            && (user in r'.buyers <==> user in r.ledger)
            && (forall u :: u != user ==> (u in r'.buyers <==> u in r.buyers))
            && r' == r.(buyers := r'.buyers)
  {
  }

  /** The stock step makes stock and ledger add up to the total, or leaves the keys as they were. */
  lemma StockMeans(r: Redis)
    ensures var (code, r') := ReconcileStock(r);
            && (code == StockNotInitialized <==> r.config.None?)
            && (code == Overcommitted <==> r.config.Some? && r.config.value.total < |r.ledger|)
            && (code == StockReconciled ==> r'.stock.Some? && Units(r') + |r'.ledger| == r.config.value.total)
            && (code != StockReconciled ==> r' == r)
            && r' == r.(stock := r'.stock)
  {
  }

  lemma InspectMeans(r: Redis, user: UserId)
    ensures var m := Inspect(r, user);
            && (user in r.buyers <==> m == Both || m == BuyerOnly)
            && (user in r.ledger <==> m == Both || m == ReservationOnly)
  {
  }

  // ---------- seed ----------

  /** Only the first seed writes; later ones say whether the sale is as they would have it. */
  lemma SeedMeans(r: Redis, c: Config, stock: int)
    ensures var (code, r') := Seed(r, c, stock);
            && (code == Seeded <==> r.config.None?)
            && (code == StockMissing <==> r.config.Some? && r.stock.None?)
            && (code == AlreadySeeded <==> r.config == Some(c) && r.stock.Some?)
            && (code == Seeded ==> r'.config == Some(c) && r'.stock == Some(stock))
            && (code != Seeded ==> r' == r)
            && r'.buyers == r.buyers && r'.ledger == r.ledger
  {
  }
}

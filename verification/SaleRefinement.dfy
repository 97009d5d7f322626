// The scripts refine a sale that only remembers who holds a unit.
//
// The simple sale has no stock counter, no buyers set and no caps: a unit is granted when
// fewer than `total` users hold one, and released when its holder's identity is presented.
// Every run of the real scripts gives exactly the replies of the simple sale.
module SaleRefinement {
  import opened Types
  import opened SaleScripts

  /** The simple sale: the configuration and who holds which reservation. */
  datatype Sale = Closed | Open(config: Config, holders: map<UserId, ReservationId>)

  datatype Op =
    | OpSeed(c: Config)
    | OpPurchase(user: UserId, id: ReservationId, now: nat)
    | OpCompensate(owner: UserId, released: ReservationId)

  datatype Reply =
    | SeedReply(seeded: SeedCode)
    | BuyReply(code: PurchaseCode, left: int)
    | ReleaseReply(release: CompensateCode)

  /** The simple specification of one operation. */
  function Ask(s: Sale, op: Op): (Reply, Sale) {
    match op
    case OpSeed(c) =>
      (match s
       case Closed => (SeedReply(Seeded), Open(c, map[]))
       case Open(config, _) => (SeedReply(if config == c then AlreadySeeded else ConfigDrift), s))
    case OpPurchase(user, id, now) =>
      if s.Closed? then (BuyReply(NotInitialized, -1), s) else
      var left := s.config.total - |s.holders|;
      if now < s.config.startsAtMs then (BuyReply(SaleNotStarted, left), s)
      else if now >= s.config.endsAtMs then (BuyReply(SaleEnded, left), s)
      else if user in s.holders then (BuyReply(AlreadyPurchased, left), s)
      else if |s.holders| == s.config.total then (BuyReply(SoldOut, 0), s)
      else (BuyReply(Confirmed, left - 1), s.(holders := s.holders[user := id]))
    case OpCompensate(user, id) =>
      if s.Open? && user in s.holders && s.holders[user] == id then
        (ReleaseReply(Released), s.(holders := s.holders - {user}))
      else (ReleaseReply(Noop), s)
  }

  /** The same operation on the real keys. The deployed seed always stocks the full total. */
  function Execute(r: Redis, op: Op): (Reply, Redis) {
    match op
    case OpSeed(c) => var (code, r') := Seed(r, c, c.total); (SeedReply(code), r')
    case OpPurchase(user, id, now) =>
      var (reply, r') := Purchase(r, user, id, now); (BuyReply(reply.code, reply.stock), r')
    case OpCompensate(user, id) =>
      var (code, r') := Compensate(r, user, id); (ReleaseReply(code), r')
  }

  function RunSimple(s: Sale, ops: seq<Op>): seq<Reply>
    decreases |ops|
  {
    if ops == [] then [] else
    var (reply, s') := Ask(s, ops[0]);
    [reply] + RunSimple(s', ops[1..])
  }

  function RunScripts(r: Redis, ops: seq<Op>): seq<Reply>
    decreases |ops|
  {
    if ops == [] then [] else
    var (reply, r') := Execute(r, ops[0]);
    [reply] + RunScripts(r', ops[1..])
  }

  /** The simple sale seen through the real keys. */
  function Holders(r: Redis): Sale {
    if r.config.None? then Closed
    else Open(r.config.value, map u | u in r.ledger :: r.ledger[u].id)
  }

  lemma HoldersCount(r: Redis)
    requires r.config.Some?
    ensures Holders(r).holders.Keys == r.ledger.Keys
    ensures |Holders(r).holders| == |r.ledger|
  {
    assert Holders(r).holders.Keys == r.ledger.Keys;
    assert |Holders(r).holders| == |Holders(r).holders.Keys|;
    assert |r.ledger| == |r.ledger.Keys|;
  }

  lemma RemovalCount<V>(m: map<UserId, V>, u: UserId)
    requires u in m
    ensures |m - {u}| == |m| - 1
    ensures (m - {u}).Keys == m.Keys - {u}
  {
    assert (m - {u}).Keys == m.Keys - {u};
    assert |m| == |m.Keys| && |m - {u}| == |(m - {u}).Keys|;
  }

  lemma InsertionCount<V>(m: map<UserId, V>, u: UserId, v: V)
    requires u !in m
    ensures |m[u := v]| == |m| + 1
    ensures m[u := v].Keys == m.Keys + {u}
  {
    assert m[u := v].Keys == m.Keys + {u};
    assert |m| == |m.Keys| && |m[u := v]| == |m[u := v].Keys|;
  }

  /** The only purchase that writes. */
  lemma ConfirmedWrites(r: Redis, user: UserId, id: ReservationId, now: nat)
    requires Conserving(r) && Purchase(r, user, id, now).0.code == Confirmed
    ensures var r' := Purchase(r, user, id, now).1;
            && Conserving(r')
            && user !in r.ledger
            && r'.ledger == r.ledger[user := Timed(id, now)]
            && Holders(r').holders == Holders(r).holders[user := id]
  {
    InsertionCount(r.ledger, user, Timed(id, now));
    var r' := Purchase(r, user, id, now).1;
    assert r'.buyers == r'.ledger.Keys;
    assert Holders(r').holders == Holders(r).holders[user := id];
  }

  lemma OthersDoNotWrite(r: Redis, user: UserId, id: ReservationId, now: nat)
    requires Conserving(r) && Purchase(r, user, id, now).0.code != Confirmed
    ensures Purchase(r, user, id, now).1 == r
  {
    assert user in r.buyers ==> r.buyers + {user} == r.buyers;
  }

  /** The decision as a function of what is left and of whether the user holds a unit. */
  function Decision(c: Config, now: nat, holds: bool, left: int): (PurchaseCode, int) {
    if now < c.startsAtMs then (SaleNotStarted, left)
    else if now >= c.endsAtMs then (SaleEnded, left)
    else if holds then (AlreadyPurchased, left)
    else if left <= 0 then (SoldOut, 0)
    else (Confirmed, left - 1)
  }

  lemma ScriptDecides(r: Redis, user: UserId, id: ReservationId, now: nat)
    requires r.config.Some? && StockOrZero(r) >= 0 && (user in r.buyers <==> user in r.ledger)
    ensures var reply := Purchase(r, user, id, now).0;
            (reply.code, reply.stock) == Decision(r.config.value, now, user in r.ledger, StockOrZero(r))
  {
  }

  lemma SaleDecides(s: Sale, user: UserId, id: ReservationId, now: nat)
    requires s.Open? && |s.holders| <= s.config.total
    ensures var (code, left) := Decision(s.config, now, user in s.holders, s.config.total - |s.holders|);
            Ask(s, OpPurchase(user, id, now))
            == (BuyReply(code, left), if code == Confirmed then s.(holders := s.holders[user := id]) else s)
  {
  }

  lemma ConservingKeys(r: Redis)
    requires Conserving(r) && r.config.Some?
    ensures 0 <= StockOrZero(r) == r.config.value.total - |r.ledger|
    ensures r.buyers == r.ledger.Keys
  {
  }

  /** With the stock that the ledger leaves, script and simple sale decide alike. */
  lemma SameDecision(r: Redis, user: UserId, id: ReservationId, now: nat)
    requires r.config.Some? && 0 <= StockOrZero(r) == r.config.value.total - |r.ledger|
    requires r.buyers == r.ledger.Keys
    ensures var reply, s := Purchase(r, user, id, now).0, Holders(r);
            Ask(s, OpPurchase(user, id, now))
            == (BuyReply(reply.code, reply.stock),
                if reply.code == Confirmed then s.(holders := s.holders[user := id]) else s)
  {
    HoldersCount(r);
    ScriptDecides(r, user, id, now);
    SaleDecides(Holders(r), user, id, now);
  }

  lemma HoldersAfter(r: Redis, user: UserId, id: ReservationId, now: nat)
    requires Conserving(r) && r.config.Some?
    ensures var (reply, r') := Purchase(r, user, id, now);
            && Conserving(r')
            && Holders(r')
               == if reply.code == Confirmed then Holders(r).(holders := Holders(r).holders[user := id]) else Holders(r)
  {
    if Purchase(r, user, id, now).0.code == Confirmed {
      ConfirmedWrites(r, user, id, now);
    } else {
      OthersDoNotWrite(r, user, id, now);
    }
  }

  /** Purchase keeps the ledger balanced and answers what the holders alone decide. */
  lemma PurchaseRefines(r: Redis, user: UserId, id: ReservationId, now: nat)
    requires Conserving(r)
    ensures Conserving(Purchase(r, user, id, now).1)
    ensures var op := OpPurchase(user, id, now);
            Ask(Holders(r), op) == (Execute(r, op).0, Holders(Execute(r, op).1))
  {
    if r.config.Some? {
      ConservingKeys(r);
      SameDecision(r, user, id, now);
      HoldersAfter(r, user, id, now);
      PurchaseExecutes(r, user, id, now);
    }
  }

  lemma PurchaseExecutes(r: Redis, user: UserId, id: ReservationId, now: nat)
    ensures var (reply, r') := Purchase(r, user, id, now);
            Execute(r, OpPurchase(user, id, now)) == (BuyReply(reply.code, reply.stock), r')
  {
  }

  /** Only a confirmed purchase writes, and it adds one fresh entry for its user. */
  lemma PurchaseEffect(r: Redis, user: UserId, id: ReservationId, now: nat)
    requires Conserving(r)
    ensures var (reply, r') := Purchase(r, user, id, now);
            if reply.code == Confirmed
            then Conserving(r') && user !in r.ledger && r'.ledger == r.ledger[user := Timed(id, now)]
            else r' == r
  {
    if Purchase(r, user, id, now).0.code == Confirmed {
      ConfirmedWrites(r, user, id, now);
    } else {
      OthersDoNotWrite(r, user, id, now);
    }
  }

  /**
   * Compensation releases exactly the presented identity. The capped branch and the
   * branch where the buyer was already missing cannot be taken from a balanced ledger.
   */
  lemma CompensateRefines(r: Redis, user: UserId, id: ReservationId)
    requires Conserving(r)
    ensures Conserving(Compensate(r, user, id).1)
    ensures Compensate(r, user, id).0 != ReleasedCapped
    ensures Compensate(r, user, id).0 == Released <==> user in r.ledger && r.ledger[user].id == id
    ensures Compensate(r, user, id).0 == Noop ==> Compensate(r, user, id).1 == r
    ensures var op := OpCompensate(user, id);
            Ask(Holders(r), op) == (Execute(r, op).0, Holders(Execute(r, op).1))
  {
    var (code, r') := Compensate(r, user, id);
    if user in r.ledger && r.ledger[user].id == id {
      RemovalCount(r.ledger, user);
      assert r'.buyers == r'.ledger.Keys;
      assert Holders(r').holders == Holders(r).holders - {user};
    }
  }

  /** A seed keeps the balance exactly when it stocks the full total or writes nothing. */
  lemma SeedConservesIff(r: Redis, c: Config, stock: int)
    requires Conserving(r)
    ensures Conserving(Seed(r, c, stock).1) <==> r.config.Some? || stock == c.total
    ensures r.config.Some? ==> Seed(r, c, stock).1 == r && Seed(r, c, stock).0 != StockMissing
  {
    if r.config.None? {
      assert |r.ledger| == 0;
      assert r.buyers == r.ledger.Keys;
    }
  }

  lemma StepRefines(r: Redis, op: Op)
    requires Conserving(r)
    ensures Conserving(Execute(r, op).1)
    ensures Ask(Holders(r), op) == (Execute(r, op).0, Holders(Execute(r, op).1))
  {
    match op
    case OpSeed(c) =>
      SeedConservesIff(r, c, c.total);
      assert r.config.None? ==> Holders(Execute(r, op).1).holders == map[];
    case OpPurchase(user, id, now) => PurchaseRefines(r, user, id, now);
    case OpCompensate(user, id) => CompensateRefines(r, user, id);
  }

  /** Whole runs: the scripts and the simple sale cannot be told apart by their replies. */
  lemma {:induction false} RunsRefine(r: Redis, ops: seq<Op>)
    requires Conserving(r)
    ensures RunScripts(r, ops) == RunSimple(Holders(r), ops)
    decreases |ops|
  {
    if ops != [] {
      StepRefines(r, ops[0]);
      RunsRefine(Execute(r, ops[0]).1, ops[1..]);
    }
  }

  /** The statement for a sale that starts from nothing. */
  lemma ScriptsRefineHolders(ops: seq<Op>)
    ensures RunScripts(EMPTY, ops) == RunSimple(Closed, ops)
  {
    RunsRefine(EMPTY, ops);
  }
}

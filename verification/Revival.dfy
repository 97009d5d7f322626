// What a revived reservation does to the stock.
//
// The order machine runs purchases, persists and resolutions. Here a recovery pass runs on a
// state it has reached, and then the failed-job sweep and the next purchase.
module Revival {
  import opened Types
  import opened SaleScripts
  import opened OrderMachine
  import opened OrderInvariant
  import opened OrderTheorems
  import opened RecoverySpec
  import opened RecoveryLinks
  import SaleRefinement
  import OrderRepository

  ghost predicate AllCarryConfirmed(s: State, queue: Queue) {
    forall u :: CarriesConfirmed(s.past, u, queue)
  }

  /** The keys that the scans of a pass leave, before its stock step. */
  ghost predicate Scanned(s: State, queue: Queue, after: Redis) {
    && after.config == s.redis.config
    && after.stock == s.redis.stock
    && forall u ::
         var d := DiffCell(u, Seen(s, queue, u));
         d.Some? && Lookup(after.ledger, u) == d.value.entry && (u in after.buyers <==> d.value.member)
  }

  /** The users whose released reservation a pass puts back. */
  function Revived(s: State, queue: Queue): set<UserId> {
    set u | u in queue && Revivable(s, queue, u)
  }

  function RevivedEntry(s: State, queue: Queue, u: UserId): Option<Entry> {
    if Revivable(s, queue, u) then Some(Timed(queue[u].data.value.id, queue[u].data.value.at))
    else Lookup(s.redis.ledger, u)
  }

  lemma ScannedUser(s: State, queue: Queue, after: Redis, u: UserId)
    requires Reachable(s) && CarriesConfirmed(s.past, u, queue) && Scanned(s, queue, after)
    ensures Lookup(after.ledger, u) == RevivedEntry(s, queue, u)
    ensures u in after.buyers <==> u in after.ledger
  {
    PassRevivesIff(s, queue, u);
    DiffRepairs(u, Seen(s, queue, u));
  }

  lemma ScannedKeys(s: State, queue: Queue, after: Redis)
    requires Reachable(s) && AllCarryConfirmed(s, queue) && Scanned(s, queue, after)
    ensures after.ledger.Keys == s.redis.ledger.Keys + Revived(s, queue)
    ensures s.redis.ledger.Keys !! Revived(s, queue)
    ensures after.buyers == after.ledger.Keys
  {
    forall u
      ensures u in after.ledger <==> u in s.redis.ledger || u in Revived(s, queue)
      ensures u in after.buyers <==> u in after.ledger
    {
      ScannedUser(s, queue, after, u);
    }
  }

  /** The scans leave the keys as they are exactly when no user has such a job. */
  lemma PassLeavesKeysIff(s: State, queue: Queue, after: Redis)
    requires Reachable(s) && AllCarryConfirmed(s, queue) && Scanned(s, queue, after)
    ensures after == s.redis <==> Revived(s, queue) == {}
  {
    ScannedKeys(s, queue, after);
    ReachableRedis(s);
    if Revived(s, queue) == {} {
      forall u ensures Lookup(after.ledger, u) == Lookup(s.redis.ledger, u) {
        ScannedUser(s, queue, after, u);
      }
      SameLookups(after.ledger, s.redis.ledger);
      assert s.redis.buyers == s.redis.ledger.Keys;
    }
  }

  lemma SameLookups<K, V>(m: map<K, V>, n: map<K, V>)
    requires forall k :: Lookup(m, k) == Lookup(n, k)
    ensures m == n
  {
    forall k ensures k in m <==> k in n {
      assert Lookup(m, k) == Lookup(n, k);
    }
    forall k | k in m ensures m[k] == n[k] {
      assert Lookup(m, k) == Lookup(n, k);
    }
  }

  /** The stock step accepts what the scans leave exactly when a unit is left for each of them. */
  lemma StockStepIff(s: State, queue: Queue, after: Redis)
    requires Reachable(s) && AllCarryConfirmed(s, queue) && Scanned(s, queue, after)
    requires s.redis.config.Some?
    ensures ReconcileStock(after).0 == StockReconciled <==> |Revived(s, queue)| <= StockOrZero(s.redis)
    ensures ReconcileStock(after).0 == StockReconciled ==> Balanced(ReconcileStock(after).1)
  {
    ScannedKeys(s, queue, after);
    ReachableRedis(s);
    ConservingIsBalanced(s.redis);
    KeyCount(s.redis.ledger, after.ledger, Revived(s, queue));
    StockStep(s.redis, after, |Revived(s, queue)|);
  }

  lemma KeyCount<K, V>(m: map<K, V>, n: map<K, V>, added: set<K>)
    requires n.Keys == m.Keys + added && m.Keys !! added
    ensures |n.Keys| == |m.Keys| + |added|
  {
  }

  lemma StockStep(r: Redis, after: Redis, added: nat)
    requires Balanced(r) && after.config == r.config && after.buyers == after.ledger.Keys
    requires |after.ledger.Keys| == |r.ledger.Keys| + added
    ensures ReconcileStock(after).0 == StockReconciled <==> added <= StockOrZero(r)
    ensures ReconcileStock(after).0 == StockReconciled ==> Balanced(ReconcileStock(after).1)
  {
    assert |after.ledger| == |after.ledger.Keys| && |r.ledger| == |r.ledger.Keys|;
  }

  // ---------- the sweeps that follow ----------

  function RestoreAll(r: Redis, ps: seq<Payload>): Redis
    decreases |ps|
  {
    if ps == [] then r else RestoreAll(CompareRestore(r, ps[0]).1, ps[1..])
  }

  function ReleaseAll(r: Redis, ps: seq<Payload>): Redis
    decreases |ps|
  {
    if ps == [] then r else ReleaseAll(Compensate(r, ps[0].user, ps[0].id).1, ps[1..])
  }

  function EntriesOf(ps: seq<Payload>): map<UserId, Entry> {
    if ps == [] then map[] else EntriesOf(ps[1..])[ps[0].user := Timed(ps[0].id, ps[0].at)]
  }

  predicate OnePerUser(ps: seq<Payload>) {
    ps == [] || (ps[0].user !in EntriesOf(ps[1..]) && OnePerUser(ps[1..]))
  }

  lemma {:induction false} EntryCount(ps: seq<Payload>)
    requires OnePerUser(ps)
    ensures |EntriesOf(ps)| == |ps|
    decreases |ps|
  {
    if ps != [] {
      EntryCount(ps[1..]);
      SaleRefinement.InsertionCount(EntriesOf(ps[1..]), ps[0].user, Timed(ps[0].id, ps[0].at));
    }
  }

  lemma {:induction false} RestoreAllEffect(r: Redis, ps: seq<Payload>)
    requires OnePerUser(ps) && r.ledger.Keys !! EntriesOf(ps).Keys
    ensures RestoreAll(r, ps) == r.(ledger := r.ledger + EntriesOf(ps), buyers := r.buyers + EntriesOf(ps).Keys)
    ensures RestoreAll(r, ps).ledger == r.ledger + EntriesOf(ps)
    ensures RestoreAll(r, ps).buyers == r.buyers + EntriesOf(ps).Keys
    ensures RestoreAll(r, ps).config == r.config && RestoreAll(r, ps).stock == r.stock
    decreases |ps|
  {
    var entries := EntriesOf(ps);
    if ps == [] {
      assert r.ledger + entries == r.ledger && r.buyers + entries.Keys == r.buyers;
    } else {
      var next, rest := CompareRestore(r, ps[0]).1, EntriesOf(ps[1..]);
      assert ps[0].user in entries;
      assert next.ledger == r.ledger[ps[0].user := Timed(ps[0].id, ps[0].at)];
      RestoreAllEffect(next, ps[1..]);
      assert next.ledger + rest == r.ledger + entries;
      assert next.buyers + rest.Keys == r.buyers + entries.Keys;
    }
  }

  /** Releasing them all gives each unit back, as far as the cap allows. */
  lemma {:induction false} ReleaseAllEffect(r: Redis, base: map<UserId, Entry>, ps: seq<Payload>)
    requires OnePerUser(ps) && base.Keys !! EntriesOf(ps).Keys
    requires r.ledger == base + EntriesOf(ps) && r.buyers == r.ledger.Keys
    requires r.config.Some? && r.stock.Some? && r.stock.value <= r.config.value.total
    ensures ReleaseAll(r, ps)
         == r.(ledger := base, buyers := base.Keys, stock := Some(Capped(r.stock.value + |ps|, r.config.value.total)))
    decreases |ps|
  {
    if ps == [] {
      assert r.ledger == base;
    } else {
      var next := Compensate(r, ps[0].user, ps[0].id).1;
      assert r.ledger[ps[0].user] == EntriesOf(ps)[ps[0].user];
      assert next.ledger == base + EntriesOf(ps[1..]);
      assert next.buyers == next.ledger.Keys;
      ReleaseAllEffect(next, base, ps[1..]);
    }
  }

  function Capped(units: int, total: int): int {
    if units < total then units else total
  }

  predicate Enough(r: Redis, ps: seq<Payload>) {
    |ps| <= StockOrZero(r)
  }

  lemma UnionCount<K, V>(m: map<K, V>, n: map<K, V>)
    requires m.Keys !! n.Keys
    ensures (m + n).Keys == m.Keys + n.Keys
    ensures |m + n| == |m| + |n|
  {
    assert |m| == |m.Keys| && |n| == |n.Keys| && |m + n| == |(m + n).Keys|;
  }

  /** What the stock step makes of keys with `added` entries more than their stock allows for. */
  lemma StockedBy(restored: Redis, held: nat, added: nat)
    requires restored.config.Some? && restored.stock.Some?
    requires restored.stock.value == restored.config.value.total - held
    requires |restored.ledger| == held + added
    ensures var (code, stocked) := ReconcileStock(restored);
            var left := restored.config.value.total - held;
            && (code == StockReconciled <==> added <= left)
            && stocked.config == restored.config
            && stocked.ledger == restored.ledger && stocked.buyers == restored.buyers
            && stocked.stock.Some? && stocked.stock.value == if added <= left then left - added else left
  {
  }

  lemma StockedEffect(r: Redis, ps: seq<Payload>)
    requires Balanced(r) && OnePerUser(ps) && r.ledger.Keys !! EntriesOf(ps).Keys
    ensures var (code, stocked) := ReconcileStock(RestoreAll(r, ps));
            && (code == StockReconciled <==> Enough(r, ps))
            && stocked.ledger == r.ledger + EntriesOf(ps)
            && stocked.buyers == stocked.ledger.Keys
            && stocked.config == r.config
            && stocked.stock.Some?
            && stocked.stock.value == if Enough(r, ps) then StockOrZero(r) - |ps| else StockOrZero(r)
  {
    RestoredFacts(r, ps);
    StockedBy(RestoreAll(r, ps), |r.ledger|, |ps|);
  }

  /** The keys before the stock step: nothing but entries and their buyers was added. */
  lemma RestoredFacts(r: Redis, ps: seq<Payload>)
    requires Balanced(r) && OnePerUser(ps) && r.ledger.Keys !! EntriesOf(ps).Keys
    ensures var restored := RestoreAll(r, ps);
            && restored.config == r.config && restored.stock == r.stock
            && restored.ledger == r.ledger + EntriesOf(ps)
            && restored.buyers == restored.ledger.Keys
            && |restored.ledger| == |r.ledger| + |ps|
            && restored.config.Some? && restored.stock.Some?
            && restored.stock.value == restored.config.value.total - |r.ledger| == StockOrZero(r)
  {
    RestoreAllEffect(r, ps);
    EntryCount(ps);
    UnionCount(r.ledger, EntriesOf(ps));
  }

  /** With the ledger as it was, only the right stock balances the keys. */
  lemma RestockedIff(r: Redis, added: nat)
    requires Balanced(r) && added > StockOrZero(r)
    ensures Balanced(r.(stock := Some(StockAfter(r, added)))) <==> r.ledger == map[]
  {
    assert |r.ledger| == 0 <==> r.ledger == map[];
  }

  /**
   * Reservations that a pass puts back, met by its stock step, and credited again by the
   * sweeps of their jobs. The stock step succeeds exactly when a unit is left for each. The
   * sweeps leave the keys as they were before the pass exactly then, or when nobody holds a
   * unit; otherwise more units are for sale than are left.
   */
  lemma SweepsAfterRevivalIff(r: Redis, ps: seq<Payload>)
    requires Balanced(r) && OnePerUser(ps) && r.ledger.Keys !! EntriesOf(ps).Keys
    ensures ReconcileStock(RestoreAll(r, ps)).0 == StockReconciled <==> Enough(r, ps)
    ensures SweptKeys(r, ps) == r.(stock := Some(StockAfter(r, |ps|)))
    ensures Enough(r, ps) ==> SweptKeys(r, ps) == r
    ensures Balanced(SweptKeys(r, ps)) <==> Enough(r, ps) || r.ledger == map[]
  {
    var stocked := ReconcileStock(RestoreAll(r, ps)).1;
    StockedEffect(r, ps);
    CappedStock(r, |ps|);
    SweptFrom(r, stocked, ps);
    if !Enough(r, ps) {
      RestockedIff(r, |ps|);
    }
  }

  /** The keys once the payloads were put back, met by the stock step, and swept. */
  function SweptKeys(r: Redis, ps: seq<Payload>): Redis {
    ReleaseAll(ReconcileStock(RestoreAll(r, ps)).1, ps)
  }

  lemma SweptFrom(r: Redis, stocked: Redis, ps: seq<Payload>)
    requires OnePerUser(ps) && r.ledger.Keys !! EntriesOf(ps).Keys && r.buyers == r.ledger.Keys
    requires stocked.ledger == r.ledger + EntriesOf(ps) && stocked.buyers == stocked.ledger.Keys
    requires r.config.Some? && stocked.config == r.config
    requires stocked.stock.Some? && stocked.stock.value <= r.config.value.total
    requires Capped(stocked.stock.value + |ps|, r.config.value.total) == StockAfter(r, |ps|)
    ensures ReleaseAll(stocked, ps) == r.(stock := Some(StockAfter(r, |ps|)))
  {
    ReleaseAllEffect(stocked, r.ledger, ps);
  }

  /** The stock once as many reservations have been put back and credited again. */
  function StockAfter(r: Redis, added: nat): int
    requires r.config.Some?
  {
    if added <= StockOrZero(r) then StockOrZero(r) else Capped(StockOrZero(r) + added, r.config.value.total)
  }

  lemma CappedStock(r: Redis, added: nat)
    requires Balanced(r)
    ensures var stocked := if added <= StockOrZero(r) then StockOrZero(r) - added else StockOrZero(r);
            Capped(stocked + added, r.config.value.total) == StockAfter(r, added)
    ensures 0 <= StockOrZero(r) <= r.config.value.total
  {
  }

  /** `ps` is what the revived users' jobs carry, one payload each. */
  ghost predicate CarriedBy(s: State, queue: Queue, ps: seq<Payload>) {
    && OnePerUser(ps)
    && EntriesOf(ps).Keys == Revived(s, queue)
    && forall u :: u in Revived(s, queue) ==> Some(EntriesOf(ps)[u]) == RevivedEntry(s, queue, u)
  }

  /** What the scans leave is exactly what restoring those payloads leaves. */
  lemma ScannedIff(s: State, queue: Queue, after: Redis, ps: seq<Payload>)
    requires Reachable(s) && AllCarryConfirmed(s, queue) && CarriedBy(s, queue, ps)
    ensures s.redis.ledger.Keys !! EntriesOf(ps).Keys
    ensures Scanned(s, queue, after) <==> after == RestoreAll(s.redis, ps)
  {
    BuyersAreKeys(s);
    RestoreAllIsScanned(s, queue, ps);
    if Scanned(s, queue, after) {
      ScannedIsRestoreAll(s, queue, after, ps);
    }
  }

  lemma BuyersAreKeys(s: State)
    requires Reachable(s)
    ensures s.redis.buyers == s.redis.ledger.Keys
  {
    ReachableRedis(s);
  }

  lemma ScannedIsRestoreAll(s: State, queue: Queue, after: Redis, ps: seq<Payload>)
    requires Reachable(s) && AllCarryConfirmed(s, queue) && CarriedBy(s, queue, ps)
    requires s.redis.buyers == s.redis.ledger.Keys && Scanned(s, queue, after)
    ensures after == RestoreAll(s.redis, ps)
  {
    ScannedKeys(s, queue, after);
    RestoreAllEffect(s.redis, ps);
    forall u ensures Lookup(after.ledger, u) == Lookup(s.redis.ledger + EntriesOf(ps), u) {
      ScannedUser(s, queue, after, u);
    }
    SameLookups(after.ledger, s.redis.ledger + EntriesOf(ps));
  }

  lemma RestoreAllIsScanned(s: State, queue: Queue, ps: seq<Payload>)
    requires Reachable(s) && AllCarryConfirmed(s, queue) && CarriedBy(s, queue, ps)
    requires s.redis.buyers == s.redis.ledger.Keys
    ensures Scanned(s, queue, RestoreAll(s.redis, ps))
  {
    var after := RestoreAll(s.redis, ps);
    RestoreAllEffect(s.redis, ps);
    forall u
      ensures var d := DiffCell(u, Seen(s, queue, u));
              d.Some? && Lookup(after.ledger, u) == d.value.entry && (u in after.buyers <==> d.value.member)
    {
      assert CarriesConfirmed(s.past, u, queue);
      PassRevivesIff(s, queue, u);
      DiffRepairs(u, Seen(s, queue, u));
      assert u in EntriesOf(ps) <==> Revivable(s, queue, u);
      assert Lookup(after.ledger, u) == RevivedEntry(s, queue, u);
    }
  }

  /**
   * A whole pass on a reachable state, and then sweeps of the revived jobs: the keys end as
   * they began, and every theorem about the state goes on to hold, exactly when a unit was
   * left for each revived reservation or nobody holds one.
   */
  lemma PassAndSweepsIff(s: State, queue: Queue, after: Redis, ps: seq<Payload>)
    requires Reachable(s) && AllCarryConfirmed(s, queue) && Scanned(s, queue, after) && CarriedBy(s, queue, ps)
    requires s.redis.config.Some?
    ensures var swept := ReleaseAll(ReconcileStock(after).1, ps);
            && (Balanced(swept) <==> |Revived(s, queue)| <= StockOrZero(s.redis) || s.redis.ledger == map[])
            && (Balanced(swept) ==> swept == s.redis)
  {
    ReachableRedis(s);
    ConservingIsBalanced(s.redis);
    ScannedIff(s, queue, after, ps);
    EntryCount(ps);
    assert |ps| == |EntriesOf(ps).Keys| == |Revived(s, queue)|;
    SweepsAfterRevivalIff(s.redis, ps);
  }

  lemma ConservingIsBalanced(r: Redis)
    requires Conserving(r) && r.config.Some?
    ensures Balanced(r)
  {
  }

  /** The sweep of a revived user's job credits a reservation that was credited before. */
  lemma RevivedIsCreditedAgain(s: State, queue: Queue, u: UserId, stocked: Redis)
    requires Reachable(s) && CarriesConfirmed(s.past, u, queue) && Revivable(s, queue, u)
    requires stocked.config.Some? && StockOrZero(stocked) < stocked.config.value.total
    requires RevivedEntry(s, queue, u) == Lookup(stocked.ledger, u) && u in stocked.buyers
    ensures var p := queue[u].data.value;
            && p.id in s.past.credited
            && Compensate(stocked, u, p.id).0 == Released
            && OrderRepository.ResolveSpec(stocked, s.rows, p).1 == Compensate(stocked, u, p.id).1
  {
    StoresAgree(s, queue, u);
  }

  /** A refused stock step and the sweeps after it put more units on sale than are left. */
  lemma RefusedPassOversells(r: Redis, ps: seq<Payload>, user: UserId, id: ReservationId, now: nat)
    requires Balanced(r) && OnePerUser(ps) && r.ledger.Keys !! EntriesOf(ps).Keys
    requires |ps| > StockOrZero(r) && r.ledger != map[]
    requires user !in r.ledger && r.config.value.startsAtMs <= now < r.config.value.endsAtMs
    ensures var swept := SweptKeys(r, ps);
            var (reply, sold) := Purchase(swept, user, id, now);
            && StockOrZero(swept) + |swept.ledger| > r.config.value.total
            && reply.code == Confirmed
            && |sold.ledger| == |r.ledger| + 1
            && (StockOrZero(r) == 0 ==> |sold.ledger| > r.config.value.total)
  {
    SweepsAfterRevivalIff(r, ps);
    SaleRefinement.InsertionCount(r.ledger, user, Timed(id, now));
    assert |r.ledger| > 0;
  }

  // ---------- a run that gets there ----------

  /** A whole resolution. */
  function GiveBackRun(w: WorkerId, a: Payload): seq<Action> {
    ResolveToInsert(w, a.id) + [Advance(w)]
  }

  /** A sale of one unit, bought and given back, with the compensated row committed. */
  function GivenBack(c: Config, a: Payload): State {
    State(Redis(Some(c), Some(c.total), {}, map[]),
          map[a.user := Row(a.id, Compensated, a.at)], map[],
          History(map[a.id := a], multiset{a.id}))
  }

  lemma GiveBack(c: Config, a: Payload, w: WorkerId)
    requires c.total >= 1
    ensures Release(OneSold(c, a), a) == GivenBack(c, a).(rows := map[])
    ensures Run(OneSold(c, a), GiveBackRun(w, a)) == Some(GivenBack(c, a))
  {
    var row := Row(a.id, Compensated, a.at);
    var s := OneSold(c, a);
    ReleaseSold(c, a);
    var inserted := Put(Release(s, a), w, Txn(a, Settling(InsertRow(row))));
    InsertIsReached(s, w, a);
    RunsJoin(s, ResolveToInsert(w, a.id), [Advance(w)]);
    assert inserted.txns - {w} == map[];
    assert inserted.rows[a.user := row] == GivenBack(c, a).rows;
    assert Step(inserted, Advance(w)) == Some(GivenBack(c, a));
    RunJoins(inserted, Advance(w), []);
    assert [Advance(w)] == [Advance(w)] + [];
  }

  lemma ReleaseSold(c: Config, a: Payload)
    requires c.total >= 1
    ensures Release(OneSold(c, a), a) == GivenBack(c, a).(rows := map[])
  {
    var released := Release(OneSold(c, a), a);
    assert released.redis.ledger == map[];
    assert released.redis.buyers == {};
    assert released.past.credited == multiset{a.id};
  }

  /** The same user's second purchase, resolved in a transaction that is rolled back after the release. */
  function SecondTry(w: WorkerId, b: Payload): seq<Action> {
    [Buy(b.user, b.id, b.at)] + ([StartResolve(w, b.id), Advance(w), Advance(w), Advance(w)] + [Rollback(w)])
  }

  function BothGivenBack(c: Config, a: Payload, b: Payload): State {
    GivenBack(c, a).(past := History(map[a.id := a][b.id := b], multiset{a.id, b.id}))
  }

  lemma RollSecondBack(c: Config, a: Payload, b: Payload, w: WorkerId)
    requires c.total >= 1 && c.startsAtMs <= b.at < c.endsAtMs && a.user == b.user && a.id != b.id
    ensures Run(GivenBack(c, a), SecondTry(w, b)) == Some(BothGivenBack(c, a, b))
  {
    var resolve := [StartResolve(w, b.id), Advance(w), Advance(w), Advance(w)];
    var bought := Step(GivenBack(c, a), Buy(b.user, b.id, b.at)).value;
    var released := Put(Release(bought, b), w, Txn(b, ResolveReleased(Some(Row(a.id, Compensated, a.at)))));
    BuySecond(c, a, b);
    ResolveWithRow(bought, w, b, Row(a.id, Compensated, a.at));
    ReleaseSecond(c, a, b, bought);
    StepRollsBack(released, w);
    assert released.txns - {w} == map[];
    RunJoins(released, Rollback(w), []);
    assert [Rollback(w)] == [Rollback(w)] + [];
    RunsJoin(bought, resolve, [Rollback(w)]);
    RunJoins(GivenBack(c, a), Buy(b.user, b.id, b.at), resolve + [Rollback(w)]);
  }

  lemma StepRollsBack(s: State, w: WorkerId)
    requires w in s.txns && s.txns[w].payload.user in s.rows
    ensures Step(s, Rollback(w)) == Some(s.(txns := s.txns - {w}))
  {
  }

  lemma BuySecond(c: Config, a: Payload, b: Payload)
    requires c.total >= 1 && c.startsAtMs <= b.at < c.endsAtMs && a.user == b.user && a.id != b.id
    ensures var bought := Step(GivenBack(c, a), Buy(b.user, b.id, b.at));
            bought == Some(GivenBack(c, a).(
              redis := Redis(Some(c), Some(c.total - 1), {b.user}, map[b.user := Timed(b.id, b.at)]),
              past := History(map[a.id := a][b.id := b], multiset{a.id})))
  {
    assert {} + {b.user} == {b.user};
  }

  lemma ReleaseSecond(c: Config, a: Payload, b: Payload, s: State)
    requires c.total >= 1 && a.user == b.user && a.id != b.id
    requires s.redis == Redis(Some(c), Some(c.total - 1), {b.user}, map[b.user := Timed(b.id, b.at)])
    requires s.past == History(map[a.id := a][b.id := b], multiset{a.id})
    ensures Release(s, b) == s.(redis := BothGivenBack(c, a, b).redis, past := BothGivenBack(c, a, b).past)
  {
    var released := Release(s, b);
    assert released.redis.ledger == map[];
    assert released.redis.buyers == {};
    assert released.past.credited == multiset{a.id, b.id};
  }

  /** An uncontended resolver of a payload whose user has another row runs up to its compensation. */
  lemma ResolveWithRow(s: State, w: WorkerId, p: Payload, row: Row)
    requires s.txns == map[] && Known(s.past, p) && p.user in s.rows && s.rows[p.user] == row && row.id != p.id
    ensures Run(s, [StartResolve(w, p.id), Advance(w), Advance(w), Advance(w)])
         == Some(Put(Release(s, p), w, Txn(p, ResolveReleased(Some(row)))))
  {
    var s1 := Put(s, w, Txn(p, ResolveBegun));
    var s2 := Put(s1, w, Txn(p, ResolveLocked));
    var s3 := Put(s2, w, Txn(p, ResolveRead(Some(row))));
    var s4 := Put(Release(s3, p), w, Txn(p, ResolveReleased(Some(row))));
    StepLocksResolver(s1, w, p);
    StepReadsRow(s2, w, p, row);
    StepReleasesOther(s3, w, p, row);
    RunsFour(s, [StartResolve(w, p.id), Advance(w), Advance(w), Advance(w)], s1, s2, s3, s4);
    assert s4.txns == s.txns[w := Txn(p, ResolveReleased(Some(row)))];
  }

  lemma StepReadsRow(s: State, w: WorkerId, p: Payload, row: Row)
    requires w in s.txns && s.txns[w] == Txn(p, ResolveLocked) && p.user in s.rows && s.rows[p.user] == row
    requires RowFree(s.txns, w, p.user)
    ensures Step(s, Advance(w)) == Some(Put(s, w, Txn(p, ResolveRead(Some(row)))))
  {
  }

  lemma StepReleasesOther(s: State, w: WorkerId, p: Payload, row: Row)
    requires w in s.txns && s.txns[w] == Txn(p, ResolveRead(Some(row))) && row.id != p.id
    ensures Step(s, Advance(w)) == Some(Put(Release(s, p), w, Txn(p, ResolveReleased(Some(row)))))
  {
  }

  /** Somebody else then buys the unit that was given back. */
  function SoldOutAgain(c: Config, a: Payload, b: Payload, x: Payload): State {
    BothGivenBack(c, a, b).(
      redis := Redis(Some(c), Some(c.total - 1), {x.user}, map[x.user := Timed(x.id, x.at)]),
      past := History(map[a.id := a][b.id := b][x.id := x], multiset{a.id, b.id}))
  }

  lemma SellAgain(c: Config, a: Payload, b: Payload, x: Payload)
    requires c.total >= 1 && c.startsAtMs <= x.at < c.endsAtMs && x.id != a.id && x.id != b.id
    ensures Step(BothGivenBack(c, a, b), Buy(x.user, x.id, x.at)) == Some(SoldOutAgain(c, a, b, x))
  {
    assert {} + {x.user} == {x.user};
  }

  function OversellRun(c: Config, a: Payload, b: Payload, x: Payload, w: WorkerId): seq<Action> {
    [SeedSale(c)] + ([Buy(a.user, a.id, a.at)] + (GiveBackRun(w, a) + (SecondTry(w, b) + [Buy(x.user, x.id, x.at)])))
  }

  lemma OversellRunEnds(c: Config, a: Payload, b: Payload, x: Payload, w: WorkerId)
    requires c.total >= 1 && a.user == b.user && a.id != b.id && x.id != a.id && x.id != b.id
    requires c.startsAtMs <= a.at < c.endsAtMs && c.startsAtMs <= b.at < c.endsAtMs
    requires c.startsAtMs <= x.at < c.endsAtMs
    ensures Run(OrderMachine.INITIAL, OversellRun(c, a, b, x, w)) == Some(SoldOutAgain(c, a, b, x))
    ensures Reachable(SoldOutAgain(c, a, b, x))
  {
    var last := [Buy(x.user, x.id, x.at)];
    SellOne(c, a);
    GiveBack(c, a, w);
    RollSecondBack(c, a, b, w);
    SellAgain(c, a, b, x);
    RunJoins(BothGivenBack(c, a, b), Buy(x.user, x.id, x.at), []);
    assert last == last + [];
    RunsJoin(GivenBack(c, a), SecondTry(w, b), last);
    RunsJoin(OneSold(c, a), GiveBackRun(w, a), SecondTry(w, b) + last);
    RunJoins(Step(OrderMachine.INITIAL, SeedSale(c)).value, Buy(a.user, a.id, a.at),
             GiveBackRun(w, a) + (SecondTry(w, b) + last));
    RunJoins(OrderMachine.INITIAL, SeedSale(c),
             [Buy(a.user, a.id, a.at)] + (GiveBackRun(w, a) + (SecondTry(w, b) + last)));
  }

  /**
   * A sold-out state of the machine and one terminal job that outlived its reservation: the
   * pass is refused, the sweep of the job credits it again, and the next purchase oversells.
   */
  lemma OneRevivalOversells(s: State, b: Payload, user: UserId, id: ReservationId, now: nat)
    requires Reachable(s) && s.redis.config.Some? && StockOrZero(s.redis) == 0 && s.redis.ledger != map[]
    requires Known(s.past, b) && b.id in s.past.credited && b.user !in s.redis.ledger
    requires b.user in s.rows ==> s.rows[b.user].id != b.id
    requires user !in s.redis.ledger && s.redis.config.value.startsAtMs <= now < s.redis.config.value.endsAtMs
    ensures var restored := CompareRestore(s.redis, b).1;
            && Scanned(s, map[b.user := TerminalJob(b)], restored)
            && ReconcileStock(restored).0 != StockReconciled
            && var sold := Purchase(Compensate(ReconcileStock(restored).1, b.user, b.id).1, user, id, now);
               sold.0.code == Confirmed && |sold.1.ledger| > s.redis.config.value.total
  {
    var queue := map[b.user := TerminalJob(b)];
    var restored := CompareRestore(s.redis, b).1;
    OnlyTheJobRevives(s, queue, b);
    ScannedIff(s, queue, restored, [b]);
    ReachableRedis(s);
    ConservingIsBalanced(s.redis);
    OneOfEach(s.redis, b);
    SweepsAfterRevivalIff(s.redis, [b]);
    RefusedPassOversells(s.redis, [b], user, id, now);
  }

  lemma OneOfEach(r: Redis, b: Payload)
    ensures RestoreAll(r, [b]) == CompareRestore(r, b).1
    ensures ReleaseAll(r, [b]) == Compensate(r, b.user, b.id).1
    ensures SweptKeys(r, [b])
         == Compensate(ReconcileStock(CompareRestore(r, b).1).1, b.user, b.id).1
  {
    OneRestore(r, b);
    OneRelease(r, b);
    OneRelease(ReconcileStock(CompareRestore(r, b).1).1, b);
  }

  lemma OneRestore(r: Redis, b: Payload)
    ensures RestoreAll(r, [b]) == CompareRestore(r, b).1
  {
    assert [b][1..] == [];
    assert RestoreAll(CompareRestore(r, b).1, []) == CompareRestore(r, b).1;
  }

  lemma OneRelease(r: Redis, b: Payload)
    ensures ReleaseAll(r, [b]) == Compensate(r, b.user, b.id).1
  {
    assert [b][1..] == [];
    assert ReleaseAll(Compensate(r, b.user, b.id).1, []) == Compensate(r, b.user, b.id).1;
  }

  /**
   * That happens in a sale of one unit: the run is made of machine steps, its only rollback is
   * admitted because the user has a committed row, and in the end two users hold the unit.
   */
  lemma OversellIsReachable(
      c: Config, a: Payload, b: Payload, x: Payload, w: WorkerId, user: UserId, id: ReservationId, now: nat)
    requires c.total == 1 && a.user == b.user && a.user != x.user && user != x.user
    requires a.id != b.id && x.id != a.id && x.id != b.id
    requires c.startsAtMs <= a.at < c.endsAtMs && c.startsAtMs <= b.at < c.endsAtMs
    requires c.startsAtMs <= x.at < c.endsAtMs && c.startsAtMs <= now < c.endsAtMs
    ensures var run := Run(OrderMachine.INITIAL, OversellRun(c, a, b, x, w));
            && run.Some? && Reachable(run.value)
            && var restored := CompareRestore(run.value.redis, b).1;
               && Scanned(run.value, map[b.user := TerminalJob(b)], restored)
               && ReconcileStock(restored).0 != StockReconciled
               && var sold := Purchase(Compensate(ReconcileStock(restored).1, b.user, b.id).1, user, id, now);
                  sold.0.code == Confirmed && |sold.1.ledger| > c.total
  {
    OversellRunEnds(c, a, b, x, w);
    assert x.user in SoldOutAgain(c, a, b, x).redis.ledger;
    OneRevivalOversells(SoldOutAgain(c, a, b, x), b, user, id, now);
  }

  lemma OnlyTheJobRevives(s: State, queue: Queue, b: Payload)
    requires queue == map[b.user := TerminalJob(b)] && Known(s.past, b)
    requires b.user !in s.redis.ledger && b.id in s.past.credited
    requires b.user in s.rows ==> s.rows[b.user].id != b.id
    ensures AllCarryConfirmed(s, queue) && Revived(s, queue) == {b.user}
    ensures CarriedBy(s, queue, [b])
  {
    assert EntriesOf([b]) == map[b.user := Timed(b.id, b.at)];
    assert [b][1..] == [];
  }
}

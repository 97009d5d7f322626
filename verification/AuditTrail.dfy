// The auditor end to end: what a returned convergence result says about the snapshots, and
// which states of the system its correspondence checks accept.
module AuditTrail {
  import opened Types
  import opened Convergence
  import Audit = AuditTypes
  import Fingerprint
  import AuditReport
  import OrderMachine
  import OrderTheorems
  import Scripts = SaleScripts

  /** All the snapshots behind a result show the same system, whatever order they were read in. */
  lemma ResultMeansStillness(
      trace: seq<Sample<Audit.Snapshot>>, e: Evidence<Audit.Snapshot>, start: nat,
      converged: Audit.Snapshot -> bool, fingerprint: Audit.Snapshot -> string,
      orderText: Audit.Order -> string, reservationText: Audit.LedgerEntry -> string,
      render: Fingerprint.Canonical -> string)
    requires Fingerprint.Injective(orderText) && Fingerprint.Injective(reservationText)
    requires Fingerprint.Injective(render)
    requires forall s :: fingerprint(s) == render(Fingerprint.Canonicalise(s, orderText, reservationText))
    requires Justifies(trace, e, start, converged, fingerprint)
    requires forall i :: start <= i < |trace| && trace[i].result.Some? ==> Audit.Collected(trace[i].result.value)
    ensures forall i :: start <= i < |trace| ==>
              trace[i].result.Some? && converged(trace[i].result.value)
              && Fingerprint.SameContent(trace[i].result.value, e.snapshot)
  {
    forall i | start <= i < |trace|
      ensures trace[i].result.Some? && converged(trace[i].result.value)
              && Fingerprint.SameContent(trace[i].result.value, e.snapshot)
    {
      assert trace[|trace| - 1].result.Some?;
      Fingerprint.FingerprintsAgreeIff(trace[i].result.value, e.snapshot, orderText, reservationText, render);
    }
  }

  // ---------- the report on a convergence result ----------

  /** What the run was meant to do. */
  datatype Plan = Plan(scenario: AuditReport.Scenario, saleId: string, initialStock: int, expectedConfirmed: int)

  /** The report's input, from a snapshot and the evidence that came with the result. */
  ghost function InputOf(plan: Plan, e: Evidence<Audit.Snapshot>, s: Audit.Snapshot): AuditReport.Input {
    var c := s.scalars;
    AuditReport.Input(
      plan.scenario, plan.saleId, plan.initialStock, plan.expectedConfirmed,
      c.sale, c.apiSale, c.redisSale,
      AuditReport.Convergence(
        c.apiReady, c.workerReady, c.waiting, c.active, c.delayed, c.failed,
        e.matchingSnapshots, e.stableIntervalMs, true),
      AuditReport.Postgres(
        c.persisted, c.compensated, c.reserved, c.duplicateUsersGlobal, c.duplicateUsersInSale, c.outsideWindow),
      c.stock, c.reservationCount,
      s.orders, SetOf(s.buyers), MapOf(s.reservations), |s.ledgerErrors|)
  }

  ghost function SetOf(buyers: seq<string>): set<string> {
    set u | u in buyers
  }

  /** The collected Map: its last entry for each key, and no key comes twice. */
  ghost function MapOf(entries: seq<Audit.LedgerEntry>): map<string, Audit.Reservation> {
    if entries == [] then map[]
    else MapOf(entries[..|entries| - 1])[entries[|entries| - 1].user := entries[|entries| - 1].reservation]
  }

  ghost predicate OneEntryPerUser(entries: seq<Audit.LedgerEntry>) {
    forall i, j :: 0 <= i < j < |entries| ==> entries[i].user != entries[j].user
  }

  lemma {:induction false} MapOfMembers(entries: seq<Audit.LedgerEntry>, u: string)
    requires OneEntryPerUser(entries)
    ensures u in MapOf(entries) ==> Audit.LedgerEntry(u, MapOf(entries)[u]) in entries
    ensures forall x :: x in entries && x.user == u ==> u in MapOf(entries) && MapOf(entries)[u] == x.reservation
    decreases |entries|
  {
    if entries != [] {
      var rest, last := entries[..|entries| - 1], entries[|entries| - 1];
      MapOfMembers(rest, u);
      assert entries == rest + [last];
      assert forall i :: 0 <= i < |rest| ==> rest[i] == entries[i] && rest[i].user != last.user;
    }
  }

  lemma SameEntriesSameMap(a: seq<Audit.LedgerEntry>, b: seq<Audit.LedgerEntry>)
    requires OneEntryPerUser(a) && OneEntryPerUser(b) && forall r :: r in a <==> r in b
    ensures MapOf(a) == MapOf(b)
  {
    forall u
      ensures u in MapOf(a) <==> u in MapOf(b)
      ensures u in MapOf(a) && u in MapOf(b) ==> MapOf(a)[u] == MapOf(b)[u]
    {
      MapOfMembers(a, u);
      MapOfMembers(b, u);
    }
  }

  lemma {:induction false} FilterBag(orders: seq<Audit.Order>, status: Audit.Status, o: Audit.Order)
    ensures multiset(AuditReport.WithStatus(orders, status))[o] == if o.status == status then multiset(orders)[o] else 0
    decreases |orders|
  {
    if orders != [] {
      FilterBag(orders[1..], status, o);
      assert orders == [orders[0]] + orders[1..];
    }
  }

  lemma SameBagFiltered(a: seq<Audit.Order>, b: seq<Audit.Order>, status: Audit.Status)
    requires multiset(a) == multiset(b)
    ensures multiset(AuditReport.WithStatus(a, status)) == multiset(AuditReport.WithStatus(b, status))
  {
    forall o: Audit.Order
      ensures multiset(AuditReport.WithStatus(a, status))[o] == multiset(AuditReport.WithStatus(b, status))[o]
    {
      FilterBag(a, status, o);
      FilterBag(b, status, o);
    }
  }

  lemma SameBag<T>(a: seq<T>, b: seq<T>)
    requires multiset(a) == multiset(b)
    ensures |a| == |b| && forall x :: x in a <==> x in b
  {
    assert |a| == |multiset(a)| && |b| == |multiset(b)|;
    forall x ensures x in a <==> x in b {
      assert x in a <==> x in multiset(a);
      assert x in b <==> x in multiset(b);
    }
  }

  lemma UsersAgreeIgnoresOrder(input: AuditReport.Input, a: seq<Audit.Order>, b: seq<Audit.Order>)
    requires multiset(a) == multiset(b)
    ensures AuditReport.UsersAgree(input, a) == AuditReport.UsersAgree(input, b)
  {
    SameBag(a, b);
    assert AuditReport.UsersOf(a) == AuditReport.UsersOf(b);
  }

  lemma AllInsideIgnoresOrder(input: AuditReport.Input, a: seq<Audit.Order>, b: seq<Audit.Order>)
    requires multiset(a) == multiset(b)
    ensures AuditReport.AllInside(input, a) == AuditReport.AllInside(input, b)
  {
    SameBag(a, b);
  }

  lemma AllSettledIgnoresOrder(
      input: AuditReport.Input, a: seq<Audit.Order>, b: seq<Audit.Order>, c: seq<Audit.Order>, d: seq<Audit.Order>)
    requires multiset(a) == multiset(b) && multiset(c) == multiset(d)
    ensures AuditReport.AllSettled(input, a, c) == AuditReport.AllSettled(input, b, d)
  {
    SameBag(a, b);
    SameBag(c, d);
  }

  /** The listed orders enter the report's invariants only as the filtered lists. */
  lemma OrdersAreFiltered(
      input: AuditReport.Input, orders: seq<Audit.Order>, persisted: seq<Audit.Order>, compensated: seq<Audit.Order>)
    ensures var other := input.(orders := orders);
            && AuditReport.StockAddsUp(other) == AuditReport.StockAddsUp(input)
            && AuditReport.UsersAgree(other, persisted) == AuditReport.UsersAgree(input, persisted)
            && AuditReport.AllInside(other, orders) == AuditReport.AllInside(input, orders)
            && AuditReport.AllSettled(other, persisted, compensated)
               == AuditReport.AllSettled(input, persisted, compensated)
  {
    var other := input.(orders := orders);
    assert forall o :: AuditReport.Matches(other, o) == AuditReport.Matches(input, o);
    assert forall o :: AuditReport.Absent(other, o) == AuditReport.Absent(input, o);
  }

  /** The verdict does not depend on the order in which orders were read. */
  lemma VerdictIgnoresOrder(input: AuditReport.Input, orders: seq<Audit.Order>)
    requires multiset(orders) == multiset(input.orders)
    ensures AuditReport.Evaluate(input.(orders := orders)) == AuditReport.Evaluate(input)
  {
    var persisted := AuditReport.WithStatus(orders, Audit.Persisted);
    var compensated := AuditReport.WithStatus(orders, Audit.Compensated);
    var persisted' := AuditReport.WithStatus(input.orders, Audit.Persisted);
    var compensated' := AuditReport.WithStatus(input.orders, Audit.Compensated);
    SameBagFiltered(orders, input.orders, Audit.Persisted);
    SameBagFiltered(orders, input.orders, Audit.Compensated);
    OrdersAreFiltered(input, orders, persisted, compensated);
    UsersAgreeIgnoresOrder(input, persisted, persisted');
    AllInsideIgnoresOrder(input, orders, input.orders);
    AllSettledIgnoresOrder(input, persisted, persisted', compensated, compensated');
  }

  lemma SameContentSameVerdict(plan: Plan, e: Evidence<Audit.Snapshot>, a: Audit.Snapshot, b: Audit.Snapshot)
    requires Audit.Collected(a) && Audit.Collected(b) && Fingerprint.SameContent(a, b)
    ensures AuditReport.Evaluate(InputOf(plan, e, a)) == AuditReport.Evaluate(InputOf(plan, e, b))
  {
    assert SetOf(a.buyers) == SetOf(b.buyers);
    SameEntriesSameMap(a.reservations, b.reservations);
    SameBag(a.ledgerErrors, b.ledgerErrors);
    assert InputOf(plan, e, a) == InputOf(plan, e, b).(orders := a.orders);
    VerdictIgnoresOrder(InputOf(plan, e, b), a.orders);
  }

  /**
   * Every snapshot of the still suffix would have had the same verdict, so a passing report
   * means the correspondence of persisted orders and ledger entries in each of them.
   */
  lemma PassHoldsThroughout(
      trace: seq<Sample<Audit.Snapshot>>, e: Evidence<Audit.Snapshot>, start: nat,
      converged: Audit.Snapshot -> bool, fingerprint: Audit.Snapshot -> string,
      orderText: Audit.Order -> string, reservationText: Audit.LedgerEntry -> string,
      render: Fingerprint.Canonical -> string, plan: Plan)
    requires Fingerprint.Injective(orderText) && Fingerprint.Injective(reservationText)
    requires Fingerprint.Injective(render)
    requires forall s :: fingerprint(s) == render(Fingerprint.Canonicalise(s, orderText, reservationText))
    requires Justifies(trace, e, start, converged, fingerprint)
    requires forall i :: start <= i < |trace| && trace[i].result.Some? ==> Audit.Collected(trace[i].result.value)
    ensures forall i :: start <= i < |trace| ==>
              && trace[i].result.Some?
              && var input := InputOf(plan, e, trace[i].result.value);
                 && AuditReport.Evaluate(input) == AuditReport.Evaluate(InputOf(plan, e, e.snapshot))
                 && (AuditReport.Evaluate(input).pass ==>
                       AuditReport.OneToOne(input, AuditReport.WithStatus(input.orders, Audit.Persisted)))
  {
    ResultMeansStillness(trace, e, start, converged, fingerprint, orderText, reservationText, render);
    assert trace[|trace| - 1].result.Some?;
    forall i | start <= i < |trace|
      ensures && trace[i].result.Some?
              && var input := InputOf(plan, e, trace[i].result.value);
                 && AuditReport.Evaluate(input) == AuditReport.Evaluate(InputOf(plan, e, e.snapshot))
                 && (AuditReport.Evaluate(input).pass ==>
                       AuditReport.OneToOne(input, AuditReport.WithStatus(input.orders, Audit.Persisted)))
    {
      var input := InputOf(plan, e, trace[i].result.value);
      SameContentSameVerdict(plan, e, trace[i].result.value, e.snapshot);
      if AuditReport.Evaluate(input).pass {
        AuditReport.PassMeansOneToOne(input);
      }
    }
  }

  // ---------- the checks on states of the order machine ----------

  /** Each row of the table once, as the auditor reads it. */
  ghost predicate ListsRows(orders: seq<Audit.Order>, rows: Table) {
    && AuditReport.DistinctUsers(orders)
    && (forall o :: o in orders ==> o.user in rows && o == Read(o.user, rows[o.user]))
    && (forall u :: u in rows ==> Read(u, rows[u]) in orders)
  }

  function Read(u: UserId, row: Row): Audit.Order {
    var status := if row.status == Persisted then Audit.Persisted else Audit.Compensated;
    Audit.Order(row.id, u, status, row.at)
  }

  ghost predicate ReadsState(input: AuditReport.Input, s: OrderMachine.State) {
    && ListsRows(input.orders, s.rows)
    && input.buyers == s.redis.buyers
    && input.reservations.Keys == s.redis.ledger.Keys
    && (forall u :: u in s.redis.ledger && s.redis.ledger[u].Timed? ==>
          input.reservations[u] == Audit.Reservation(s.redis.ledger[u].id, s.redis.ledger[u].at))
  }

  /** Everyone who holds a unit has a persisted row. */
  ghost predicate Drained(s: OrderMachine.State) {
    forall u :: u in s.redis.ledger ==> u in s.rows && s.rows[u].status == Persisted
  }

  /** The auditor's correspondence checks, and its check on compensated orders. */
  ghost predicate Corresponds(input: AuditReport.Input) {
    && AuditReport.Checks(input, AuditReport.WithStatus(input.orders, Audit.Persisted))
    && (forall o :: o in AuditReport.WithStatus(input.orders, Audit.Compensated) ==>
          AuditReport.Absent(input, o))
  }

  lemma {:induction false} FilterKeepsDistinct(orders: seq<Audit.Order>, status: Audit.Status)
    requires AuditReport.DistinctUsers(orders)
    ensures AuditReport.DistinctUsers(AuditReport.WithStatus(orders, status))
    decreases |orders|
  {
    if orders != [] {
      var rest := AuditReport.WithStatus(orders[1..], status);
      AuditReport.DistinctRest(orders);
      FilterKeepsDistinct(orders[1..], status);
      forall o | o in rest ensures o.user != orders[0].user {
        AuditReport.WithStatusMembers(orders[1..], status, o);
      }
    }
  }

  /** Persisted orders of a reachable state match their ledger entries. */
  lemma PersistedMatch(input: AuditReport.Input, s: OrderMachine.State, o: Audit.Order)
    requires OrderTheorems.Reachable(s) && ReadsState(input, s)
    requires o in AuditReport.WithStatus(input.orders, Audit.Persisted)
    ensures AuditReport.Matches(input, o) && o.user in s.rows && s.rows[o.user].status == Persisted
  {
    AuditReport.WithStatusMembers(input.orders, Audit.Persisted, o);
    OrderTheorems.PersistedOrdersHoldUnits(s, o.user);
  }

  lemma BuyersAgree(input: AuditReport.Input, s: OrderMachine.State)
    requires OrderTheorems.Reachable(s) && ReadsState(input, s)
    ensures input.buyers == input.reservations.Keys
  {
    OrderTheorems.ReachableRedis(s);
    assert s.redis.buyers == s.redis.ledger.Keys;
  }

  lemma DrainedMatchesAll(input: AuditReport.Input, s: OrderMachine.State, u: UserId)
    requires ReadsState(input, s) && Drained(s) && u in input.reservations
    ensures exists o :: o in AuditReport.WithStatus(input.orders, Audit.Persisted) && o.user == u
  {
    assert u in s.redis.ledger;
    var o := Read(u, s.rows[u]);
    assert o in input.orders;
    AuditReport.WithStatusMembers(input.orders, Audit.Persisted, o);
    assert o.user == u;
  }

  lemma CompensatedHoldNothing(input: AuditReport.Input, s: OrderMachine.State, o: Audit.Order)
    requires ReadsState(input, s) && Drained(s) && input.buyers == input.reservations.Keys
    requires o in AuditReport.WithStatus(input.orders, Audit.Compensated)
    ensures AuditReport.Absent(input, o)
  {
    AuditReport.WithStatusMembers(input.orders, Audit.Compensated, o);
    assert o == Read(o.user, s.rows[o.user]);
    assert o.user !in s.redis.ledger;
  }

  lemma DrainedCorresponds(input: AuditReport.Input, s: OrderMachine.State)
    requires OrderTheorems.Reachable(s) && ReadsState(input, s) && Drained(s)
    ensures Corresponds(input)
  {
    var persisted := AuditReport.WithStatus(input.orders, Audit.Persisted);
    BuyersAgree(input, s);
    FilterKeepsDistinct(input.orders, Audit.Persisted);
    forall o | o in persisted ensures AuditReport.Matches(input, o) {
      PersistedMatch(input, s, o);
    }
    forall u | u in input.reservations ensures exists o :: o in persisted && o.user == u {
      DrainedMatchesAll(input, s, u);
    }
    assert AuditReport.OneToOne(input, persisted);
    AuditReport.ChecksIffOneToOne(input, persisted);
    forall o | o in AuditReport.WithStatus(input.orders, Audit.Compensated)
      ensures AuditReport.Absent(input, o)
    {
      CompensatedHoldNothing(input, s, o);
    }
  }

  /** In every reachable state the checks pass exactly when all units held are persisted. */
  lemma AuditorAcceptsIff(input: AuditReport.Input, s: OrderMachine.State)
    requires OrderTheorems.Reachable(s) && ReadsState(input, s)
    ensures Corresponds(input) <==> Drained(s)
  {
    if Drained(s) {
      DrainedCorresponds(input, s);
    }
    if Corresponds(input) {
      var persisted := AuditReport.WithStatus(input.orders, Audit.Persisted);
      AuditReport.ChecksIffOneToOne(input, persisted);
      forall u | u in s.redis.ledger ensures u in s.rows && s.rows[u].status == Persisted {
        assert u in input.reservations;
        var o :| o in persisted && o.user == u;
        PersistedMatch(input, s, o);
      }
    }
  }

  // ---------- the whole report on states of the order machine ----------

  /** The report's input when it is read from a state of the machine with its sale configured. */
  ghost predicate ReadsSale(input: AuditReport.Input, s: OrderMachine.State) {
    && ReadsState(input, s)
    && s.redis.config.Some?
    && input.sale == Audit.Sale(input.saleId, input.sale.name, s.redis.config.value.total,
                                s.redis.config.value.startsAtMs, s.redis.config.value.endsAtMs)
    && input.apiSale == input.sale && input.redisSale == input.sale
    && input.initialStock == s.redis.config.value.total
    && input.stock == Scripts.StockOrZero(s.redis) && input.reservationCount == |s.redis.ledger|
    && input.postgres.persisted == |AuditReport.WithStatus(input.orders, Audit.Persisted)|
    && input.postgres.compensated == |AuditReport.WithStatus(input.orders, Audit.Compensated)|
    && input.postgres.reserved == 0
    && input.postgres.duplicateUsersGlobal == 0 && input.postgres.duplicateUsersInSale == 0
    && (input.postgres.outsideWindow == 0 <==>
          forall o :: o in input.orders ==> AuditReport.Inside(input, o.createdAtMs))
    && input.ledgerErrors == 0
  }

  /** No purchase was given back for good: every row is a persisted one. */
  predicate NothingCompensated(s: OrderMachine.State) {
    forall u :: u in s.rows ==> s.rows[u].status == Persisted
  }

  /** The plan was met, the system is at rest, and it was watched for long enough. */
  ghost predicate PlanMet(input: AuditReport.Input) {
    && AuditReport.AtRest(input.convergence)
    && input.convergence.matchingSnapshots == 2
    && input.convergence.stableIntervalMs >= 250.0
    && input.convergence.finalLiveCollection
    && AuditReport.ExpectedNumber(input.scenario, input.expectedConfirmed)
    && input.postgres.persisted == input.expectedConfirmed
  }

  lemma OrdersInside(input: AuditReport.Input, s: OrderMachine.State)
    requires OrderTheorems.Reachable(s) && ReadsSale(input, s)
    ensures AuditReport.NothingOutside(input)
  {
    OrderTheorems.ReachableIsFree(s);
    OrderTheorems.ReachableRedis(s);
    forall o | o in input.orders ensures AuditReport.Inside(input, o.createdAtMs) {
      OrderTheorems.RowsInsideWindow(s, o.user);
    }
    forall u | u in input.reservations ensures AuditReport.Inside(input, input.reservations[u].at) {
      assert u in s.redis.ledger && s.redis.ledger[u].Timed?;
    }
  }

  lemma NoneCompensatedIff(input: AuditReport.Input, s: OrderMachine.State)
    requires ReadsState(input, s)
    ensures AuditReport.WithStatus(input.orders, Audit.Compensated) == [] <==> NothingCompensated(s)
  {
    var compensated := AuditReport.WithStatus(input.orders, Audit.Compensated);
    if compensated == [] {
      forall u | u in s.rows ensures s.rows[u].status == Persisted {
        AuditReport.WithStatusMembers(input.orders, Audit.Compensated, Read(u, s.rows[u]));
      }
    } else {
      AuditReport.WithStatusMembers(input.orders, Audit.Compensated, compensated[0]);
      assert compensated[0] in input.orders;
    }
  }

  lemma CorrespondsIffOneToOne(input: AuditReport.Input)
    ensures Corresponds(input) <==>
              && AuditReport.OneToOne(input, AuditReport.WithStatus(input.orders, Audit.Persisted))
              && (forall c :: c in input.orders && c.status == Audit.Compensated ==>
                    c.user !in input.buyers && c.user !in input.reservations)
  {
    AuditReport.ChecksIffOneToOne(input, AuditReport.WithStatus(input.orders, Audit.Persisted));
    forall o
      ensures o in AuditReport.WithStatus(input.orders, Audit.Compensated)
         <==> o in input.orders && o.status == Audit.Compensated
    {
      AuditReport.WithStatusMembers(input.orders, Audit.Compensated, o);
    }
  }

  /** The numbers of a state of the machine agree exactly when as many orders persisted as were planned. */
  lemma NumbersOfState(input: AuditReport.Input, s: OrderMachine.State)
    requires OrderTheorems.Reachable(s) && ReadsSale(input, s) && Corresponds(input)
    ensures input.postgres.persisted == input.reservationCount
    ensures 0 <= input.stock && input.stock + input.reservationCount == input.initialStock
  {
    OrderTheorems.ReachableRedis(s);
    assert |input.reservations| == |input.reservations.Keys| && |s.redis.ledger| == |s.redis.ledger.Keys|;
  }

  /**
   * On a reachable state the report passes exactly when everyone who holds a unit has a
   * persisted row, nothing was compensated, the plan was met, and the system is at rest.
   */
  lemma ReportPassesIff(input: AuditReport.Input, s: OrderMachine.State)
    requires OrderTheorems.Reachable(s) && ReadsSale(input, s)
    ensures AuditReport.Evaluate(input).pass <==> Drained(s) && NothingCompensated(s) && PlanMet(input)
  {
    AuditReport.PassIff(input);
    AuditorAcceptsIff(input, s);
    CorrespondsIffOneToOne(input);
    NoneCompensatedIff(input, s);
    OrdersInside(input, s);
    if Corresponds(input) {
      NumbersOfState(input, s);
    }
  }

  // ---------- what the loop waits for ----------

  /** The auditor's notion of a converged snapshot. */
  predicate Converged(s: Audit.Snapshot) {
    && s.scalars.apiReady && s.scalars.workerReady
    && s.scalars.waiting == 0 && s.scalars.active == 0 && s.scalars.delayed == 0 && s.scalars.failed == 0
  }

  /** Every snapshot behind a result shows both services ready and all four queue counts at zero. */
  lemma ResultIsAtRest(
      trace: seq<Sample<Audit.Snapshot>>, e: Evidence<Audit.Snapshot>, start: nat,
      fingerprint: Audit.Snapshot -> string, plan: Plan)
    requires Justifies(trace, e, start, Converged, fingerprint)
    ensures forall i :: start <= i < |trace| ==>
              trace[i].result.Some?
              && AuditReport.AtRest(InputOf(plan, e, trace[i].result.value).convergence)
  {
  }
}

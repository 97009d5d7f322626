// What a passing audit report proves about the data it was computed from.
module AuditReport {
  import opened AuditTypes

  datatype Scenario = Warmup | Smoke | Surge | DuplicateStorm | SoldOut | WindowEdge

  datatype Convergence = Convergence(
    apiReady: bool, workerReady: bool,
    waiting: int, active: int, delayed: int, failed: int,
    matchingSnapshots: int, stableIntervalMs: real, finalLiveCollection: bool)

  datatype Postgres = Postgres(
    persisted: int, compensated: int, reserved: int,
    duplicateUsersGlobal: int, duplicateUsersInSale: int, outsideWindow: int)

  datatype Input = Input(
    scenario: Scenario,
    saleId: string, initialStock: int, expectedConfirmed: int,
    sale: Sale, apiSale: Sale, redisSale: Sale,
    convergence: Convergence,
    postgres: Postgres,
    stock: int, reservationCount: int,
    orders: seq<Order>,
    buyers: set<string>,
    reservations: map<string, Reservation>,
    ledgerErrors: nat)

  datatype Report = Report(i1: bool, i2: bool, i3: bool, i4: bool, pass: bool)

  function WithStatus(orders: seq<Order>, status: Status): seq<Order> {
    if orders == [] then []
    else (if orders[0].status == status then [orders[0]] else []) + WithStatus(orders[1..], status)
  }

  function UsersOf(orders: seq<Order>): set<string> {
    set o | o in orders :: o.user
  }

  /** Equal sizes, and every element of the left is in the right. */
  predicate EqualSet(left: set<string>, right: set<string>) {
    |left| == |right| && forall x :: x in left ==> x in right
  }

  function ScenarioCount(s: Scenario): int {
    match s
    case Warmup => 200
    case Smoke => 200
    case Surge => 500
    case DuplicateStorm => 5000
    case SoldOut => 10
    case WindowEdge => 1000
  }

  predicate SaleMatches(s: Sale, input: Input) {
    && s.id == input.saleId
    && s.name == input.sale.name
    && s.totalStock == input.initialStock
    && s.startsAtMs == input.sale.startsAtMs
    && s.endsAtMs == input.sale.endsAtMs
  }

  predicate Matches(input: Input, o: Order) {
    o.user in input.reservations && input.reservations[o.user] == Reservation(o.id, o.createdAtMs)
  }

  predicate Absent(input: Input, o: Order) {
    o.user !in input.buyers && o.user !in input.reservations
  }

  predicate Inside(input: Input, at: int) {
    input.sale.startsAtMs <= at < input.sale.endsAtMs
  }

  /** I1: nothing was oversold. */
  predicate StockAddsUp(input: Input) {
    && 0 <= input.stock <= input.initialStock
    && input.reservationCount <= input.initialStock
    && input.stock + input.reservationCount == input.initialStock
    && input.postgres.persisted == input.reservationCount
    && input.expectedConfirmed == ScenarioCount(input.scenario)
    && input.postgres.persisted == ScenarioCount(input.scenario)
  }

  /** I2: one order per user. */
  predicate UsersAgree(input: Input, persisted: seq<Order>) {
    && input.postgres.duplicateUsersGlobal == 0
    && input.postgres.duplicateUsersInSale == 0
    && EqualSet(input.buyers, input.reservations.Keys)
    && EqualSet(input.buyers, UsersOf(persisted))
  }

  /** I3: nothing was sold outside the window. */
  predicate AllInside(input: Input, orders: seq<Order>) {
    && input.postgres.outsideWindow == 0
    && (forall o :: o in orders ==> Inside(input, o.createdAtMs))
    && (forall u :: u in input.reservations ==> Inside(input, input.reservations[u].at))
  }

  /** I4: the system has come to rest with every confirmed purchase accounted for. */
  predicate AllSettled(input: Input, persisted: seq<Order>, compensated: seq<Order>) {
    var pg, cv := input.postgres, input.convergence;
    && cv.apiReady && cv.workerReady
    && cv.matchingSnapshots == 2 && cv.stableIntervalMs >= 250.0 && cv.finalLiveCollection
    && cv.waiting == 0 && cv.active == 0 && cv.delayed == 0 && cv.failed == 0
    && pg.reserved == 0
    && input.expectedConfirmed == pg.persisted + pg.compensated
    && (forall o :: o in persisted ==> Matches(input, o))
    && |input.reservations| == |persisted|
    && (forall o :: o in compensated ==> Absent(input, o))
    && SaleMatches(input.sale, input) && SaleMatches(input.apiSale, input) && SaleMatches(input.redisSale, input)
    && input.ledgerErrors == 0
  }

  function Evaluate(input: Input): Report {
    var persisted := WithStatus(input.orders, Persisted);
    var compensated := WithStatus(input.orders, Compensated);
    var i1 := StockAddsUp(input);
    var i2 := UsersAgree(input, persisted);
    var i3 := AllInside(input, input.orders);
    var i4 := AllSettled(input, persisted, compensated);
    Report(i1, i2, i3, i4, i1 && i2 && i3 && i4)
  }

  // ---------- counting ----------

  lemma {:induction false} SubsetBySize(a: set<string>, b: set<string>)
    requires a <= b && |a| == |b|
    ensures a == b
    decreases |a|
  {
    if x :| x in b && x !in a {
      SizeMonotone(a, b - {x});
      assert false;
    }
  }

  lemma {:induction false} SizeMonotone(a: set<string>, b: set<string>)
    requires a <= b
    ensures |a| <= |b|
    decreases |a|
  {
    if x :| x in a {
      SizeMonotone(a - {x}, b - {x});
    }
  }

  lemma EqualSetIff(a: set<string>, b: set<string>)
    ensures EqualSet(a, b) <==> a == b
  {
    if EqualSet(a, b) {
      SubsetBySize(a, b);
    }
  }

  ghost predicate DistinctUsers(orders: seq<Order>) {
    forall i, j :: 0 <= i < j < |orders| ==> orders[i].user != orders[j].user
  }

  lemma UsersOfRest(orders: seq<Order>)
    requires orders != []
    ensures UsersOf(orders) == {orders[0].user} + UsersOf(orders[1..])
  {
    assert orders == [orders[0]] + orders[1..];
    forall u | u in UsersOf(orders) ensures u in {orders[0].user} + UsersOf(orders[1..]) {
      var o :| o in orders && o.user == u;
      assert o == orders[0] || o in orders[1..];
    }
    forall u | u in {orders[0].user} + UsersOf(orders[1..]) ensures u in UsersOf(orders) {
      if u != orders[0].user {
        var o :| o in orders[1..] && o.user == u;
        assert o in orders;
      }
    }
  }

  lemma DistinctRest(orders: seq<Order>)
    requires orders != []
    ensures DistinctUsers(orders) <==> DistinctUsers(orders[1..]) && orders[0].user !in UsersOf(orders[1..])
  {
    var rest := orders[1..];
    if DistinctUsers(orders) {
      forall o | o in rest ensures o.user != orders[0].user {
        var k :| 0 <= k < |rest| && rest[k] == o;
        assert orders[k + 1] == o;
      }
      forall i, j | 0 <= i < j < |rest| ensures rest[i].user != rest[j].user {
        assert rest[i] == orders[i + 1] && rest[j] == orders[j + 1];
      }
    } else {
      var i, j :| 0 <= i < j < |orders| && orders[i].user == orders[j].user;
      assert orders[j] == rest[j - 1] && orders[j] in rest;
      if i > 0 {
        assert orders[i] == rest[i - 1];
      }
    }
  }

  /** A list has as many users as orders exactly when no user repeats. */
  lemma {:induction false} DistinctByCounting(orders: seq<Order>)
    ensures |UsersOf(orders)| <= |orders|
    ensures |UsersOf(orders)| == |orders| <==> DistinctUsers(orders)
    decreases |orders|
  {
    if orders == [] {
      assert UsersOf(orders) == {};
    } else {
      DistinctByCounting(orders[1..]);
      UsersOfRest(orders);
      DistinctRest(orders);
    }
  }

  // ---------- what a pass means ----------

  /**
   * Persisted orders and ledger entries correspond one to one by user with equal identity
   * and time, and the buyers are exactly those users.
   */
  ghost predicate OneToOne(input: Input, persisted: seq<Order>) {
    && DistinctUsers(persisted)
    && (forall o :: o in persisted ==>
          && o.user in input.reservations
          && input.reservations[o.user].id == o.id && input.reservations[o.user].at == o.createdAtMs)
    && (forall u :: u in input.reservations ==> exists o :: o in persisted && o.user == u)
    && (forall u :: u in input.buyers <==> u in input.reservations)
  }

  /** The five checks of the report that concern the correspondence. */
  predicate Checks(input: Input, persisted: seq<Order>) {
    && EqualSet(input.buyers, input.reservations.Keys)
    && EqualSet(input.buyers, UsersOf(persisted))
    && (forall o :: o in persisted ==> Matches(input, o))
    && |input.reservations| == |persisted|
  }

  /** The checks hold exactly when the correspondence does, although none of them compares users pairwise. */
  lemma ChecksIffOneToOne(input: Input, persisted: seq<Order>)
    ensures Checks(input, persisted) <==> OneToOne(input, persisted)
  {
    var keys, users := input.reservations.Keys, UsersOf(persisted);
    assert |input.reservations| == |keys|;
    EqualSetIff(input.buyers, keys);
    EqualSetIff(input.buyers, users);
    DistinctByCounting(persisted);
    if Checks(input, persisted) {
      forall u | u in input.reservations ensures exists o :: o in persisted && o.user == u {
        assert u in users;
      }
    }
    if OneToOne(input, persisted) {
      assert input.buyers == keys;
      forall u ensures u in users <==> u in keys {
        if u in users {
          var o :| o in persisted && o.user == u;
          assert Matches(input, o);
        }
      }
      assert users == keys;
    }
  }

  lemma {:induction false} WithStatusMembers(orders: seq<Order>, status: Status, o: Order)
    ensures o in WithStatus(orders, status) <==> o in orders && o.status == status
    decreases |orders|
  {
    if orders != [] {
      WithStatusMembers(orders[1..], status, o);
    }
  }

  /** A passing report means that the sale is consistent, order by order. */
  lemma PassMeansOneToOne(input: Input)
    requires Evaluate(input).pass
    ensures OneToOne(input, WithStatus(input.orders, Persisted))
    ensures forall o, c | o in input.orders && c in input.orders && o.status == Persisted && c.status == Compensated ::
              o.user != c.user
    ensures forall c :: c in input.orders && c.status == Compensated ==> Absent(input, c)
    ensures forall u :: u in input.reservations ==> Inside(input, input.reservations[u].at)
    ensures input.reservationCount == |input.reservations| ==>
              input.stock == input.initialStock - |WithStatus(input.orders, Persisted)|
  {
    var persisted := WithStatus(input.orders, Persisted);
    assert Checks(input, persisted);
    ChecksIffOneToOne(input, persisted);
    forall c | c in input.orders && c.status == Compensated ensures Absent(input, c) {
      WithStatusMembers(input.orders, Compensated, c);
    }
    forall o | o in input.orders && o.status == Persisted ensures o.user in input.reservations {
      WithStatusMembers(input.orders, Persisted, o);
      assert Matches(input, o);
    }
  }

  /** How many purchases each scenario must confirm. */
  predicate ExpectedNumber(s: Scenario, n: int) {
    && (s == Warmup || s == Smoke ==> n == 200)
    && (s == Surge ==> n == 500)
    && (s == DuplicateStorm ==> n == 5000)
    && (s == SoldOut ==> n == 10)
    && (s == WindowEdge ==> n == 1000)
  }

  /** Both services are ready and the queue is empty. */
  predicate AtRest(cv: Convergence) {
    && cv.apiReady && cv.workerReady
    && (cv.waiting, cv.active, cv.delayed, cv.failed) == (0, 0, 0, 0)
  }

  /** The numbers that the three stores report agree with each other and with the plan. */
  predicate NumbersAgree(input: Input) {
    && ExpectedNumber(input.scenario, input.expectedConfirmed)
    && input.postgres.persisted == input.expectedConfirmed == input.reservationCount
    && input.postgres.compensated == 0
    && input.postgres.reserved == 0
    && 0 <= input.stock && 0 <= input.reservationCount
    && input.stock + input.reservationCount == input.initialStock
  }

  /** The three descriptions of the sale are one, and it is the planned one. */
  predicate SameSale(input: Input) {
    && input.sale == input.apiSale == input.redisSale
    && input.sale.id == input.saleId && input.sale.totalStock == input.initialStock
  }

  /** Every order and every ledger entry lies in the sale's window. */
  predicate NothingOutside(input: Input) {
    && input.postgres.outsideWindow == 0
    && (forall o :: o in input.orders ==> input.sale.startsAtMs <= o.createdAtMs < input.sale.endsAtMs)
    && (forall u :: u in input.reservations ==>
          input.sale.startsAtMs <= input.reservations[u].at < input.sale.endsAtMs)
  }

  /**
   * A report passes exactly when the system is at rest, was observed long enough, nothing was
   * compensated and every count is the planned one, the sale is described alike everywhere,
   * nothing lies outside its window, and persisted orders and ledger entries correspond.
   */
  lemma PassIff(input: Input)
    ensures Evaluate(input).pass <==>
              && AtRest(input.convergence)
              && input.convergence.matchingSnapshots == 2
              && input.convergence.stableIntervalMs >= 250.0
              && input.convergence.finalLiveCollection
              && NumbersAgree(input)
              && SameSale(input)
              && NothingOutside(input)
              && input.postgres.duplicateUsersGlobal == 0 && input.postgres.duplicateUsersInSale == 0
              && input.ledgerErrors == 0
              && OneToOne(input, WithStatus(input.orders, Persisted))
              && (forall c :: c in input.orders && c.status == Compensated ==>
                    c.user !in input.buyers && c.user !in input.reservations)
  {
    ChecksIffOneToOne(input, WithStatus(input.orders, Persisted));
    forall o ensures o in WithStatus(input.orders, Compensated) <==> o in input.orders && o.status == Compensated {
      WithStatusMembers(input.orders, Compensated, o);
    }
    SettledIff(input, WithStatus(input.orders, Persisted), WithStatus(input.orders, Compensated));
    AddsUpIff(input);
  }

  lemma SettledIff(input: Input, persisted: seq<Order>, compensated: seq<Order>)
    ensures AllSettled(input, persisted, compensated) <==>
              && AtRest(input.convergence)
              && input.convergence.matchingSnapshots == 2
              && input.convergence.stableIntervalMs >= 250.0
              && input.convergence.finalLiveCollection
              && input.postgres.reserved == 0
              && input.expectedConfirmed == input.postgres.persisted + input.postgres.compensated
              && (forall o :: o in persisted ==> Matches(input, o))
              && |input.reservations| == |persisted|
              && (forall o :: o in compensated ==> Absent(input, o))
              && SameSale(input)
              && input.ledgerErrors == 0
  {
  }

  lemma AddsUpIff(input: Input)
    ensures StockAddsUp(input) <==>
              && ExpectedNumber(input.scenario, input.expectedConfirmed)
              && input.postgres.persisted == input.expectedConfirmed == input.reservationCount
              && 0 <= input.stock && 0 <= input.reservationCount
              && input.stock + input.reservationCount == input.initialStock
  {
  }
}

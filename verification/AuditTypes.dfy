// What the auditor collects.
module AuditTypes {

  datatype Status = Reserved | Persisted | Compensated

  datatype Order = Order(id: string, user: string, status: Status, createdAtMs: int)

  datatype Reservation = Reservation(id: string, at: int)

  datatype LedgerEntry = LedgerEntry(user: string, reservation: Reservation)

  datatype Sale = Sale(id: string, name: string, totalStock: int, startsAtMs: int, endsAtMs: int)

  /** The fields that a fingerprint prints as they are. */
  datatype Scalars = Scalars(
    apiReady: bool, workerReady: bool,
    waiting: int, active: int, delayed: int, failed: int,
    sale: Sale, apiSale: Sale, redisSale: Sale,
    totalStock: int, persisted: int, compensated: int, reserved: int,
    duplicateUsersGlobal: int, duplicateUsersInSale: int, outsideWindow: int,
    stock: int, buyerCount: int, reservationCount: int, metricsConfirmed: int)

  /** A collected snapshot; every list is in the order in which it was collected. */
  datatype Snapshot = Snapshot(
    scalars: Scalars,
    orders: seq<Order>,
    buyers: seq<string>,
    reservations: seq<LedgerEntry>,
    ledgerErrors: seq<string>)

  /** Buyers come from a Set and reservations from a Map, so neither repeats a key. */
  ghost predicate Collected(s: Snapshot) {
    && (forall i, j :: 0 <= i < j < |s.buyers| ==> s.buyers[i] != s.buyers[j])
    && (forall i, j :: 0 <= i < j < |s.reservations| ==> s.reservations[i].user != s.reservations[j].user)
  }
}

// Values shared by the Redis ledger, the Postgres orders table and the orders queue.
module Types {

  datatype Option<+T> = None | Some(value: T)

  type UserId = string
  type ReservationId = string

  /** What a confirmed purchase hands to the orders queue. */
  datatype Payload = Payload(user: UserId, id: ReservationId, at: nat)

  /** The two order states the worker writes. */
  datatype Status = Persisted | Compensated

  /** A row of the orders table; the table is a map because `user_id` is unique. */
  datatype Row = Row(id: ReservationId, status: Status, at: nat)

  type Table = map<UserId, Row>

  /**
   * One value of the reservations hash, after parsing. `id` is always the text before
   * the first colon, which is what the scripts compare. `Bare` is a value without a
   * colon; `Garbled` is any value the store refuses to parse.
   */
  datatype Entry = Timed(id: ReservationId, at: nat) | Bare(id: ReservationId) | Garbled(id: ReservationId)

  /** The sale's config hash: half-open window `[startsAtMs, endsAtMs)` and unit count. */
  datatype Config = Config(startsAtMs: int, endsAtMs: int, total: nat)

  /** The four Redis keys of one sale. */
  datatype Redis = Redis(
    config: Option<Config>,
    stock: Option<int>,
    buyers: set<UserId>,
    ledger: map<UserId, Entry>)

  function Lookup<K, V>(m: map<K, V>, k: K): Option<V> {
    if k in m then Some(m[k]) else None
  }
}

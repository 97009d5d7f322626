// The scripts in their own order of Redis commands, each proved to make the transition
// that SaleScripts states.
module SaleStore {
  import opened Types
  import Scripts = SaleScripts

  class Store {
    var config: Option<Config>
    var stock: Option<int>
    var buyers: set<UserId>
    var ledger: map<UserId, Entry>

    /** The four keys as one value. */
    function State(): Redis
      reads this
    {
      Redis(config, stock, buyers, ledger)
    }

    /** Any contents at all: recovery starts from keys that may have been damaged. */
    constructor (contents: Redis)
      ensures State() == contents
    {
      config, stock := contents.config, contents.stock;
      buyers, ledger := contents.buyers, contents.ledger;
    }

    /** Also returns the stock and the configuration that the sale has, as the script replies. */
    method Seed(c: Config, stockRemaining: int) returns (code: Scripts.SeedCode, left: int, current: Config)
      modifies this
      ensures (code, State()) == Scripts.Seed(old(State()), c, stockRemaining)
      ensures config == Some(current) && left == StockOr(stock, -1)
    {
      if config.Some? {
        if stock.None? {
          return Scripts.StockMissing, -1, config.value;
        }
        if config.value.startsAtMs != c.startsAtMs || config.value.endsAtMs != c.endsAtMs
           || config.value.total != c.total {
          return Scripts.ConfigDrift, stock.value, config.value;
        }
        return Scripts.AlreadySeeded, stock.value, config.value;
      }
      config := Some(c);
      stock := Some(stockRemaining);
      code, left, current := Scripts.Seeded, stockRemaining, c;
    }

    method Purchase(user: UserId, id: ReservationId, now: nat) returns (reply: Scripts.PurchaseReply)
      modifies this
      ensures (reply, State()) == Scripts.Purchase(old(State()), user, id, now)
    {
      if config.None? {
        return Scripts.PurchaseReply(Scripts.NotInitialized, -1, now, None);
      }
      var left := StockOr(stock, 0);
      if left < 0 {
        left := 0;
      }
      if now < config.value.startsAtMs {
        return Scripts.PurchaseReply(Scripts.SaleNotStarted, left, now, None);
      }
      if now >= config.value.endsAtMs {
        return Scripts.PurchaseReply(Scripts.SaleEnded, left, now, None);
      }
      if user in buyers || user in ledger {
        buyers := buyers + {user};
        return Scripts.PurchaseReply(Scripts.AlreadyPurchased, left, now, None);
      }
      if left <= 0 {
        return Scripts.PurchaseReply(Scripts.SoldOut, 0, now, None);
      }
      stock := Some(stock.value - 1);
      buyers := buyers + {user};
      ledger := ledger[user := Timed(id, now)];
      reply := Scripts.PurchaseReply(Scripts.Confirmed, stock.value, now, Some(id));
    }

    /** Also returns the stock that is left once the script has run. */
    method Compensate(user: UserId, id: ReservationId) returns (code: Scripts.CompensateCode, remaining: int)
      modifies this
      ensures (code, State()) == Scripts.Compensate(old(State()), user, id)
      ensures remaining == StockOr(stock, 0)
    {
      var left := StockOr(stock, 0);
      if user !in ledger {
        return Scripts.Noop, left;
      }
      if ledger[user].id != id {
        return Scripts.Noop, left;
      }
      ledger := ledger - {user};
      var removed := user in buyers;
      buyers := buyers - {user};
      if !removed {
        return Scripts.Noop, left;
      }
      if config.Some? && left >= config.value.total {
        return Scripts.ReleasedCapped, left;
      }
      stock := Some(left + 1);
      code, remaining := Scripts.Released, left + 1;
    }

    /** Also returns the value that is on file once the script has run. */
    method CompareRestore(p: Payload) returns (code: Scripts.RestoreCode, current: Entry)
      modifies this`ledger, this`buyers
      ensures (code, State()) == Scripts.CompareRestore(old(State()), p)
      ensures p.user in ledger && current == ledger[p.user]
    {
      if p.user !in ledger {
        ledger := ledger[p.user := Timed(p.id, p.at)];
        buyers := buyers + {p.user};
        return Scripts.Restored, ledger[p.user];
      }
      current := ledger[p.user];
      if current.id == p.id {
        buyers := buyers + {p.user};
        return Scripts.AlreadyMatched, current;
      }
      code := Scripts.Conflict;
    }

    method ReconcileMembership(user: UserId) returns (present: bool)
      modifies this`buyers
      ensures (present, State()) == Scripts.ReconcileMembership(old(State()), user)
    {
      if user in ledger {
        buyers := buyers + {user};
        return true;
      }
      buyers := buyers - {user};
      present := false;
    }

    /** Also returns the stock before and after, the ledger's size and the total, or -1 for what is missing. */
    method ReconcileStock() returns (code: Scripts.StockCode, previous: int, current: int, count: int, total: int)
      modifies this`stock
      ensures (code, State()) == Scripts.ReconcileStock(old(State()))
      ensures config.None? ==> (previous, current, count, total) == (-1, -1, 0, -1)
      ensures config.Some? ==>
                && previous == StockOr(old(stock), -1) && current == StockOr(stock, -1)
                && count == |ledger| && total == config.value.total
    {
      if config.None? {
        return Scripts.StockNotInitialized, -1, -1, 0, -1;
      }
      previous, count, total := StockOr(stock, -1), |ledger|, config.value.total;
      if count > total {
        return Scripts.Overcommitted, previous, previous, count, total;
      }
      stock := Some(total - count);
      code, current := Scripts.StockReconciled, total - count;
    }

    /** Also returns the value on file. */
    method Inspect(user: UserId) returns (membership: Scripts.Membership, stored: Option<Entry>)
      ensures membership == Scripts.Inspect(State(), user)
      ensures stored == Lookup(ledger, user)
    {
      var member := user in buyers;
      var reserved := user in ledger;
      if member && reserved {
        return Scripts.Both, Some(ledger[user]);
      }
      if !member && !reserved {
        return Scripts.Neither, None;
      }
      if member {
        return Scripts.BuyerOnly, None;
      }
      membership, stored := Scripts.ReservationOnly, Some(ledger[user]);
    }
  }

  /** `GET stock`, or what the script takes a missing key for. */
  function StockOr(stock: Option<int>, missing: int): int {
    if stock.Some? then stock.value else missing
  }
}

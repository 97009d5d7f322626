// The per-user fixed-window limiter: one Redis counter per key, with a time to live.
module RateLimit {
  import opened Types

  /** A counter key; a legacy key may have no expiry. */
  datatype Bucket = Bucket(count: int, expiresAt: Option<int>)

  datatype Reply = Reply(count: int, ttlMs: int)

  /** Redis keeps a key through the millisecond of its expiry, then drops it. */
  function Live(b: Option<Bucket>, now: int): Option<Bucket> {
    if b.Some? && b.value.expiresAt.Some? && now > b.value.expiresAt.value then None else b
  }

  /** `PTTL`: negative when there is no key or no expiry. */
  function Ttl(b: Option<Bucket>, now: int): int {
    if b.None? then -2 else if b.value.expiresAt.None? then -1 else b.value.expiresAt.value - now
  }

  function Script(b: Option<Bucket>, now: int, window: int): (Bucket, Reply) {
    var live := Live(b, now);
    var ttl := Ttl(live, now);
    if ttl < 0 then
      (Bucket(1, Some(now + window)), Reply(1, window))
    else
      var count := live.value.count + 1;
      (live.value.(count := count), Reply(count, ttl))
  }

  /** The guard rejects a reply that is not two positive integers. */
  predicate WellFormed(r: Reply) {
    r.count >= 1 && r.ttlMs > 0
  }

  /** A malformed reply fails open. */
  predicate Admits(r: Reply, max: nat) {
    !WellFormed(r) || r.count <= max
  }

  class PerUserRateLimitGuard<K(==)> {
    const max: nat
    const window: int
    var buckets: map<K, Bucket>

    constructor (max: nat, window: int)
      ensures this.max == max && this.window == window && buckets == map[]
    {
      this.max, this.window, buckets := max, window, map[];
    }

    /** `key` is `None` without a plausible identity; `reachable` is false when the store fails. */
    method CanActivate(key: Option<K>, now: int, reachable: bool) returns (allowed: bool, retryAfter: int)
      modifies this
      ensures key.None? || !reachable ==> allowed && buckets == old(buckets)
      ensures key.Some? && reachable ==>
                var (b, r) := Script(Lookup(old(buckets), key.value), now, window);
                buckets == old(buckets)[key.value := b] && allowed == Admits(r, max)
                && (!allowed ==> 1 <= retryAfter && r.ttlMs <= 1000 * retryAfter < r.ttlMs + 1000)
    {
      if key.None? || !reachable {
        return true, 0;
      }
      var (b, reply) := Script(Lookup(buckets, key.value), now, window);
      buckets := buckets[key.value := b];
      if !WellFormed(reply) || reply.count <= max {
        return true, 0;
      }
      retryAfter := (reply.ttlMs + 999) / 1000;
      allowed := false;
    }
  }

  // ---------- a schedule of requests on one key ----------

  predicate Sorted(times: seq<int>) {
    forall i, j :: 0 <= i <= j < |times| ==> times[i] <= times[j]
  }

  /** No bucket, a legacy bucket, or one the script wrote. */
  predicate Ordinary(b: Option<Bucket>) {
    b.Some? && b.value.expiresAt.Some? ==> b.value.count >= 1
  }

  function After(b: Option<Bucket>, times: seq<int>, window: int): Option<Bucket> {
    if times == [] then b
    else Some(Script(After(b, times[..|times| - 1], window), times[|times| - 1], window).0)
  }

  function ReplyTo(b: Option<Bucket>, times: seq<int>, window: int, i: nat): Reply
    requires i < |times|
  {
    Script(After(b, times[..i], window), times[i], window).1
  }

  /** When the window that request `i` fell in expires. */
  function Expiry(b: Option<Bucket>, times: seq<int>, window: int, i: nat): int
    requires i < |times|
  {
    times[i] + ReplyTo(b, times, window, i).ttlMs
  }

  /** The bucket after request `i` is what its reply said. */
  lemma BucketAfter(b: Option<Bucket>, times: seq<int>, window: int, i: nat)
    requires i < |times| && window > 0
    ensures var r := ReplyTo(b, times, window, i);
            && After(b, times[..i + 1], window) == Some(Bucket(r.count, Some(Expiry(b, times, window, i))))
            && r.ttlMs >= 0
  {
    assert times[..i + 1][..i] == times[..i];
  }

  lemma {:induction false} CountsArePositive(b: Option<Bucket>, times: seq<int>, window: int, i: nat)
    requires i < |times| && window > 0 && Ordinary(b)
    ensures ReplyTo(b, times, window, i).count >= 1
  {
    if i > 0 {
      CountsArePositive(b, times, window, i - 1);
      BucketAfter(b, times, window, i - 1);
    }
  }

  /**
   * A window is never extended: every later request up to its last millisecond falls in the
   * same window and adds exactly one to its count.
   */
  lemma {:induction false} NeverExtended(b: Option<Bucket>, times: seq<int>, window: int, i: nat, j: nat)
    requires i <= j < |times| && window > 0 && Sorted(times)
    requires times[j] <= Expiry(b, times, window, i)
    ensures Expiry(b, times, window, j) == Expiry(b, times, window, i)
    ensures ReplyTo(b, times, window, j).count == ReplyTo(b, times, window, i).count + (j - i)
  {
    if i < j {
      NeverExtended(b, times, window, i, j - 1);
      BucketAfter(b, times, window, j - 1);
    }
  }

  /** Two requests share a window and count up, or the later window is a whole window later. */
  lemma {:induction false} SameOrLater(b: Option<Bucket>, times: seq<int>, window: int, i: nat, j: nat)
    requires i < j < |times| && window > 0 && Sorted(times) && Ordinary(b)
    ensures var ri, rj := ReplyTo(b, times, window, i), ReplyTo(b, times, window, j);
            var ei, ej := Expiry(b, times, window, i), Expiry(b, times, window, j);
            (ei == ej && ri.count < rj.count) || (ei + window < ej && ej <= times[j] + window && rj.count >= 1)
  {
    BucketAfter(b, times, window, j - 1);
    CountsArePositive(b, times, window, j);
    if i < j - 1 {
      SameOrLater(b, times, window, i, j - 1);
    }
  }

  /** The well-formed replies that admit a request in `[from, from + window)`. */
  function Admitted(b: Option<Bucket>, times: seq<int>, window: int, max: nat, from: int): set<nat> {
    set i: nat | i < |times| && from <= times[i] < from + window
                 && WellFormed(ReplyTo(b, times, window, i)) && ReplyTo(b, times, window, i).count <= max
  }

  /** The requests in `[from, from + window)` that land on the last millisecond of a window. */
  function AtExpiry(b: Option<Bucket>, times: seq<int>, window: int, from: int): set<nat> {
    set i: nat | i < |times| && from <= times[i] < from + window && times[i] == Expiry(b, times, window, i)
  }

  /** Every request let through in `[from, from + window)`. */
  function LetThrough(b: Option<Bucket>, times: seq<int>, window: int, max: nat, from: int): set<nat> {
    set i: nat | i < |times| && from <= times[i] < from + window && Admits(ReplyTo(b, times, window, i), max)
  }

  lemma {:induction false} FewCounts(s: set<nat>, counts: seq<int>, low: int, high: int)
    requires low <= high + 1
    requires forall i :: i in s ==> i < |counts| && low <= counts[i] <= high
    requires forall i, j :: i in s && j in s && i < j ==> counts[i] != counts[j]
    ensures |s| <= high - low + 1
    decreases high - low + 1
  {
    if low == high + 1 {
      assert forall i :: i !in s;
    } else if i :| i in s && counts[i] == high {
      FewCounts(s - {i}, counts, low, high - 1);
    } else {
      FewCounts(s, counts, low, high - 1);
    }
  }

  function Counts(b: Option<Bucket>, times: seq<int>, window: int): (r: seq<int>)
    ensures |r| == |times| && forall i :: 0 <= i < |times| ==> r[i] == ReplyTo(b, times, window, i).count
  {
    seq(|times|, i requires 0 <= i < |times| => ReplyTo(b, times, window, i).count)
  }

  /** One window admits at most the requests numbered `low` to `max`. */
  lemma OneWindow(b: Option<Bucket>, times: seq<int>, window: int, s: set<nat>, low: int, max: nat, expiry: int)
    requires window > 0 && Sorted(times) && Ordinary(b) && low <= max + 1
    requires forall i :: i in s ==> i < |times| && Expiry(b, times, window, i) == expiry
                                    && low <= ReplyTo(b, times, window, i).count <= max
    ensures |s| <= max - low + 1
  {
    forall i, j | i in s && j in s && i < j
      ensures Counts(b, times, window)[i] != Counts(b, times, window)[j]
    {
      SameOrLater(b, times, window, i, j);
    }
    FewCounts(s, Counts(b, times, window), low, max);
  }

  /** A request that opened its window is a whole window before any later window. */
  lemma OpenerIsFar(b: Option<Bucket>, times: seq<int>, window: int, i: nat, j: nat)
    requires i < j < |times| && window > 0 && Sorted(times) && Ordinary(b)
    requires ReplyTo(b, times, window, i).count == 1
    requires Expiry(b, times, window, i) != Expiry(b, times, window, j)
    ensures times[i] + window < times[j]
  {
    SameOrLater(b, times, window, i, j);
    if i > 0 {
      CountsArePositive(b, times, window, i - 1);
      BucketAfter(b, times, window, i - 1);
    }
  }

  /**
   * In any interval of one window length, well-formed replies admit fewer than twice the
   * maximum.
   */
  lemma AdmittedBound(b: Option<Bucket>, times: seq<int>, window: int, max: nat, from: int)
    requires window > 0 && max > 0 && Sorted(times) && Ordinary(b)
    ensures |Admitted(b, times, window, max, from)| <= 2 * max - 1
  {
    var all := Admitted(b, times, window, max, from);
    if all != {} {
      var first := Least(all);
      var here, later := Sharing(b, times, window, all, first);
      if later == {} {
        OneWindow(b, times, window, here, 1, max, Expiry(b, times, window, first));
      } else {
        TwoWindows(b, times, window, max, from, first, here, later);
      }
      Split(all, here, later);
    }
  }

  lemma Split(all: set<nat>, here: set<nat>, later: set<nat>)
    requires all == here + later
    ensures |all| <= |here| + |later|
  {
    assert all == here + (later - here);
  }

  /** The requests of `all` in the same window as `first`, and the rest. */
  lemma Sharing(b: Option<Bucket>, times: seq<int>, window: int, all: set<nat>, first: nat)
    returns (here: set<nat>, later: set<nat>)
    requires first < |times| && forall i :: i in all ==> i < |times|
    ensures all == here + later
    ensures forall i :: i in here ==> i in all && Expiry(b, times, window, i) == Expiry(b, times, window, first)
    ensures forall i :: i in later ==> i in all && Expiry(b, times, window, i) != Expiry(b, times, window, first)
  {
    here := set i | i in all && Expiry(b, times, window, i) == Expiry(b, times, window, first);
    later := all - here;
  }

  /** Two windows meet inside the interval, so the opener of the first lies before it. */
  lemma TwoWindows(
      b: Option<Bucket>, times: seq<int>, window: int, max: nat, from: int,
      first: nat, here: set<nat>, later: set<nat>)
    requires window > 0 && max > 0 && Sorted(times) && Ordinary(b) && later != {}
    requires forall i :: i in here || i in later ==> i in Admitted(b, times, window, max, from) && first <= i
    requires forall i :: i in here || i in later ==> i < |times|
    requires first in here
    requires forall i :: i in here ==> Expiry(b, times, window, i) == Expiry(b, times, window, first)
    requires forall i :: i in later ==> Expiry(b, times, window, i) != Expiry(b, times, window, first)
    ensures |here| <= max - 1 && |later| <= max
  {
    var second := Least(later);
    LaterShareAWindow(b, times, window, max, from, first, second);
    OneWindow(b, times, window, later, 1, max, Expiry(b, times, window, second));
    forall i | i in here ensures 2 <= ReplyTo(b, times, window, i).count {
      NotTheOpener(b, times, window, i, first, second);
    }
    OneWindow(b, times, window, here, 2, max, Expiry(b, times, window, first));
  }

  lemma NotTheOpener(b: Option<Bucket>, times: seq<int>, window: int, i: nat, first: nat, second: nat)
    requires first <= i < |times| && first < second < |times| && window > 0 && Sorted(times) && Ordinary(b)
    requires times[second] < times[first] + window
    requires Expiry(b, times, window, i) == Expiry(b, times, window, first)
    requires Expiry(b, times, window, second) != Expiry(b, times, window, first)
    ensures 2 <= ReplyTo(b, times, window, i).count
  {
    CountsArePositive(b, times, window, i);
    SameOrLater(b, times, window, first, second);
    if i > second {
      SameOrLater(b, times, window, second, i);
    } else if ReplyTo(b, times, window, i).count == 1 {
      OpenerIsFar(b, times, window, i, second);
    }
  }

  lemma LaterShareAWindow(
      b: Option<Bucket>, times: seq<int>, window: int, max: nat, from: int, first: nat, second: nat)
    requires window > 0 && Sorted(times) && Ordinary(b)
    requires var all := Admitted(b, times, window, max, from);
             first in all && second in all && first < second
    requires Expiry(b, times, window, first) != Expiry(b, times, window, second)
    ensures forall i :: i in Admitted(b, times, window, max, from) && second <= i ==>
              Expiry(b, times, window, i) == Expiry(b, times, window, second)
  {
    forall i | i in Admitted(b, times, window, max, from) && second < i
      ensures Expiry(b, times, window, i) == Expiry(b, times, window, second)
    {
      SameOrLater(b, times, window, first, second);
      SameOrLater(b, times, window, second, i);
      BucketAfter(b, times, window, first);
    }
  }

  predicate IsLeast(m: nat, s: set<nat>) {
    m in s && forall i :: i in s ==> m <= i
  }

  ghost function Least(s: set<nat>): (m: nat)
    requires s != {}
    ensures IsLeast(m, s)
  {
    LeastExists(s);
    var m :| IsLeast(m, s);
    m
  }

  lemma {:induction false} LeastExists(s: set<nat>)
    requires s != {}
    ensures exists m :: IsLeast(m, s)
  {
    var k :| k in s;
    var rest := s - {k};
    assert s == {k} + rest;
    if rest == {} {
      assert IsLeast(k, s);
    } else {
      LeastExists(rest);
      var m :| IsLeast(m, rest);
      assert IsLeast(if k < m then k else m, s);
    }
  }

  /** Past the maximum, only requests on the expiry millisecond get through. */
  lemma LetThroughIff(b: Option<Bucket>, times: seq<int>, window: int, max: nat, from: int)
    requires window > 0 && Ordinary(b)
    ensures LetThrough(b, times, window, max, from)
         == Admitted(b, times, window, max, from) + AtExpiry(b, times, window, from)
  {
    forall i: nat | i < |times|
      ensures Admits(ReplyTo(b, times, window, i), max)
         <==> (WellFormed(ReplyTo(b, times, window, i)) && ReplyTo(b, times, window, i).count <= max)
              || times[i] == Expiry(b, times, window, i)
    {
      CountsArePositive(b, times, window, i);
      BucketAfter(b, times, window, i);
    }
  }

  /** The bound on everything let through, for any schedule on one key. */
  lemma LimiterBound(b: Option<Bucket>, times: seq<int>, window: int, max: nat, from: int)
    requires window > 0 && max > 0 && Sorted(times) && Ordinary(b)
    ensures |LetThrough(b, times, window, max, from)| <= 2 * max - 1 + |AtExpiry(b, times, window, from)|
  {
    LetThroughIff(b, times, window, max, from);
    AdmittedBound(b, times, window, max, from);
    var x, y := Admitted(b, times, window, max, from), AtExpiry(b, times, window, from);
    assert x + y == x + (y - x);
  }

  /** One request opens a window; `n` more arrive in the millisecond it expires. */
  function ExpiryBurst(window: int, n: nat): seq<int> {
    [0] + seq(n, _ => window)
  }

  /** The store answers such a burst with a time to live of zero, so all of it gets through. */
  lemma {:induction false} ExpiryBurstIsUnbounded(window: int, n: nat, max: nat, i: nat)
    requires window > 0 && 1 <= i <= n
    ensures var burst := ExpiryBurst(window, n);
            && Sorted(burst)
            && ReplyTo(None, burst, window, i) == Reply(i + 1, 0)
            && Admits(ReplyTo(None, burst, window, i), max)
  {
    var burst := ExpiryBurst(window, n);
    if i > 1 {
      ExpiryBurstIsUnbounded(window, n, max, i - 1);
    }
    BucketAfter(None, burst, window, i - 1);
  }

  /** Without a live window the request opens one of full length and counts one. */
  lemma WindowOpens(b: Option<Bucket>, now: int, window: int)
    requires window > 0
    requires b.None? || b.value.expiresAt.None? || now > b.value.expiresAt.value
    ensures Script(b, now, window) == (Bucket(1, Some(now + window)), Reply(1, window))
  {
  }

  /** A request that counts one has opened a window of full length. */
  lemma OpenerRuns(b: Option<Bucket>, times: seq<int>, window: int, i: nat)
    requires i < |times| && window > 0 && Ordinary(b)
    requires ReplyTo(b, times, window, i).count == 1
    ensures Expiry(b, times, window, i) == times[i] + window
  {
    if i > 0 {
      CountsArePositive(b, times, window, i - 1);
      BucketAfter(b, times, window, i - 1);
    }
  }

  /**
   * Within a window exactly the first `max` requests are let through, and those on its last
   * millisecond. Nobody who stays within the maximum is ever turned away.
   */
  lemma LetThroughInWindowIff(b: Option<Bucket>, times: seq<int>, window: int, max: nat, i: nat, j: nat)
    requires i <= j < |times| && window > 0 && Sorted(times) && Ordinary(b)
    requires ReplyTo(b, times, window, i).count == 1 && times[j] <= times[i] + window
    ensures Admits(ReplyTo(b, times, window, j), max) <==> j - i < max || times[j] == times[i] + window
  {
    OpenerRuns(b, times, window, i);
    NeverExtended(b, times, window, i, j);
    BucketAfter(b, times, window, j);
  }

  /** Every request after a window's last millisecond opens the next one. */
  lemma NextWindowOpens(b: Option<Bucket>, times: seq<int>, window: int, i: nat)
    requires i + 1 < |times| && window > 0 && Sorted(times) && Ordinary(b)
    requires times[i + 1] > Expiry(b, times, window, i)
    ensures ReplyTo(b, times, window, i + 1) == Reply(1, window)
  {
    BucketAfter(b, times, window, i);
    WindowOpens(After(b, times[..i + 1], window), times[i + 1], window);
  }

  /** So does the first request on a key without a window. */
  lemma FirstWindowOpens(b: Option<Bucket>, times: seq<int>, window: int)
    requires times != [] && window > 0
    requires b.None? || b.value.expiresAt.None? || times[0] > b.value.expiresAt.value
    ensures ReplyTo(b, times, window, 0) == Reply(1, window)
  {
    WindowOpens(b, times[0], window);
  }
}

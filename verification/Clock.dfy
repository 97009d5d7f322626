// The Redis-anchored clock and the fast-path guard that relies on it.
//
// Time is real; every clock reading is a whole millisecond, rounded down. The server's
// clock runs a fixed `drift` ahead of the local one.
module Clock {
  import opened Types
  import Scripts = SaleScripts

  const RTT_SAMPLE_WINDOW := 5

  datatype ClockSample = ClockSample(offsetMs: int, rttMs: int)

  /** One status round trip: when it was sent, read on the server, and received. */
  datatype Exchange = Exchange(sent: real, read: real, received: real)

  predicate Proper(x: Exchange) {
    x.sent <= x.read <= x.received
  }

  /** `Math.round(half / 2)`: halves go up. */
  function RoundHalf(half: int): int {
    (half + 1) / 2
  }

  /** The sample that `attemptSync` computes from its three readings. */
  function SampleFrom(t0: int, t1: int, serverTimeMs: int): ClockSample {
    ClockSample(RoundHalf(2 * serverTimeMs - 2 * t0 - (t1 - t0)), t1 - t0)
  }

  /** The sample that an exchange produces. */
  function SampleOf(x: Exchange, drift: real): ClockSample {
    SampleFrom(x.sent.Floor, x.received.Floor, (x.read + drift).Floor)
  }

  ghost predicate Honest(s: ClockSample, drift: real) {
    exists x :: Proper(x) && s == SampleOf(x, drift)
  }

  class RedisAnchoredClock {
    var samples: seq<ClockSample>
    var best: Option<ClockSample>
    var lastSyncAtMs: Option<int>

    /** `best` is the first sample of least round trip among at most five. */
    ghost predicate Valid()
      reads this
    {
      && |samples| <= RTT_SAMPLE_WINDOW
      && (samples == [] <==> best.None?)
      && (best.Some? ==> IsLowest(best.value, samples))
      && (best.Some? <==> lastSyncAtMs.Some?)
    }

    constructor ()
      ensures Valid() && samples == []
    {
      samples, best, lastSyncAtMs := [], None, None;
    }

    /** Every kept sample comes from a real exchange with a server `drift` ahead. */
    ghost predicate AllHonest(drift: real)
      reads this
    {
      forall s :: s in samples ==> Honest(s, drift)
    }

    /** `reply` is `None` when the status call fails. */
    method AttemptSync(t0: int, t1: int, reply: Option<int>) returns (synced: bool)
      requires Valid()
      modifies this
      ensures Valid() && synced == reply.Some?
      ensures !synced ==> samples == old(samples) && best == old(best) && lastSyncAtMs == old(lastSyncAtMs)
      ensures synced ==>
                && samples == LastFive(old(samples) + [SampleFrom(t0, t1, reply.value)])
                && lastSyncAtMs == Some(t1)
      ensures synced ==>
                && KeepsNewest(old(samples), SampleFrom(t0, t1, reply.value), samples)
                && best.Some? && best.value in samples
                && (forall s :: s in samples ==> best.value.rttMs <= s.rttMs)
      ensures forall drift :: old(AllHonest(drift)) && (synced ==> Honest(SampleFrom(t0, t1, reply.value), drift))
                ==> AllHonest(drift)
    {
      if reply.None? {
        return false;
      }
      var rtt := t1 - t0;
      var sample := ClockSample(RoundHalf(2 * reply.value - 2 * t0 - rtt), rtt);
      var recent := samples + [sample];
      if |recent| > RTT_SAMPLE_WINDOW {
        recent := recent[1..];
      }
      LastFiveMeans(samples, sample);
      var lowest := Lowest(recent);
      LowestMeans(lowest, recent);
      ghost var was := samples;
      assert sample == SampleFrom(t0, t1, reply.value) && recent == LastFive(was + [sample]);
      samples, best, lastSyncAtMs := recent, Some(lowest), Some(t1);
      synced := true;
      assert forall s :: s in samples ==> s in was || s == sample;
    }

    function OffsetMs(): int
      reads this
    {
      if best.Some? then best.value.offsetMs else 0
    }

    function RttMs(): int
      reads this
    {
      if best.Some? then best.value.rttMs else 0
    }

    predicate IsFresh(localNow: int, maxStaleness: int)
      reads this
    {
      lastSyncAtMs.Some? && localNow - lastSyncAtMs.value <= maxStaleness
    }
  }

  function LastFive(s: seq<ClockSample>): seq<ClockSample> {
    if |s| > RTT_SAMPLE_WINDOW then s[1..] else s
  }

  ghost predicate IsLowest(best: ClockSample, samples: seq<ClockSample>) {
    exists k :: 0 <= k < |samples| && FirstLowest(best, samples, k)
  }

  predicate FirstLowest(best: ClockSample, samples: seq<ClockSample>, k: nat)
    requires k < |samples|
  {
    && samples[k] == best
    && (forall j :: 0 <= j < k ==> samples[j].rttMs > best.rttMs)
    && (forall j :: 0 <= j < |samples| ==> samples[j].rttMs >= best.rttMs)
  }

  /** `after` ends with `sample`, behind the last four samples of `before` or all of them. */
  predicate KeepsNewest(before: seq<ClockSample>, sample: ClockSample, after: seq<ClockSample>) {
    && |after| == (if |before| < 5 then |before| + 1 else 5)
    && after[|after| - 1] == sample
    && |after| - 1 <= |before|
    && after[..|after| - 1] == before[|before| - (|after| - 1)..]
  }

  /** The newest sample and the four before it are kept. */
  lemma LastFiveMeans(samples: seq<ClockSample>, sample: ClockSample)
    requires |samples| <= 5
    ensures var kept := LastFive(samples + [sample]);
            && KeepsNewest(samples, sample, kept)
            && forall s :: s in kept ==> s in samples || s == sample
  {
    var all := samples + [sample];
    if |all| > 5 {
      assert all[1..] == samples[1..] + [sample];
    }
  }

  lemma LowestMeans(best: ClockSample, samples: seq<ClockSample>)
    requires IsLowest(best, samples)
    ensures best in samples
    ensures forall s :: s in samples ==> best.rttMs <= s.rttMs
  {
  }

  /** The loop of `attemptSync` over the kept samples. */
  method Lowest(samples: seq<ClockSample>) returns (lowest: ClockSample)
    requires samples != []
    ensures IsLowest(lowest, samples)
  {
    lowest := samples[0];
    for i := 0 to |samples|
      invariant IsLowest(lowest, samples[..i]) || (i == 0 && lowest == samples[0])
    {
      ghost var before := lowest;
      if samples[i].rttMs < lowest.rttMs {
        lowest := samples[i];
      }
      assert lowest == samples[i] && i > 0 && samples[i].rttMs < before.rttMs ==> IsLowest(before, samples[..i]);
      LowestGrows(lowest, samples, i);
    }
    assert samples[..|samples|] == samples;
  }

  lemma LowestGrows(lowest: ClockSample, samples: seq<ClockSample>, i: nat)
    requires i < |samples|
    requires || (i == 0 && lowest == samples[0])
             || (lowest.rttMs <= samples[i].rttMs && IsLowest(lowest, samples[..i]))
             || (lowest == samples[i] && exists m :: IsLowest(m, samples[..i]) && lowest.rttMs < m.rttMs)
    ensures IsLowest(lowest, samples[..i + 1])
  {
    var longer := samples[..i + 1];
    if i == 0 && lowest == samples[0] {
      assert FirstLowest(lowest, longer, 0);
    } else if lowest.rttMs <= samples[i].rttMs && IsLowest(lowest, samples[..i]) {
      var k :| 0 <= k < i && FirstLowest(lowest, samples[..i], k);
      assert forall j :: 0 <= j < i ==> longer[j] == samples[..i][j];
      assert FirstLowest(lowest, longer, k);
    } else {
      var m :| IsLowest(m, samples[..i]) && lowest.rttMs < m.rttMs;
      assert forall j :: 0 <= j < i ==> longer[j] == samples[..i][j];
      assert FirstLowest(lowest, longer, i);
    }
  }

  // ---------- the guard ----------

  /** The cached sale window and its age. */
  datatype Cached = Cached(initialized: bool, startsAtMs: int, endsAtMs: int, ageMs: int)

  datatype GuardOutcome = Silent | NotStarted(now: int) | Ended(now: int)

  function Skew(config: nat, rttMs: int): int {
    if config > 4 * rttMs then config else 4 * rttMs
  }

  function EvaluateFastPathGuard(
      isFresh: bool, localNow: int, sample: ClockSample, cached: Option<Cached>, config: nat, maxStaleness: int)
    : GuardOutcome
  {
    if !isFresh then Silent
    else if cached.None? || !cached.value.initialized then Silent
    else if cached.value.ageMs > maxStaleness then Silent
    else
      var skew := Skew(config, sample.rttMs);
      var now := localNow + sample.offsetMs;
      if now < cached.value.startsAtMs - skew then NotStarted(now)
      else if now >= cached.value.endsAtMs + skew then Ended(now)
      else Silent
  }

  /** The clock and the cached window are recent enough to speak. */
  predicate MaySpeak(isFresh: bool, cached: Option<Cached>, maxStaleness: int) {
    isFresh && cached.Some? && cached.value.initialized && cached.value.ageMs <= maxStaleness
  }

  /**
   * The guard speaks exactly when clock and window are recent and the corrected time is
   * outside the window by more than the configured margin and by more than four round trips.
   */
  lemma GuardSpeaksIff(
      isFresh: bool, localNow: int, s: ClockSample, cached: Option<Cached>, config: nat, maxStaleness: int)
    requires cached.Some? ==> cached.value.startsAtMs <= cached.value.endsAtMs
    requires s.rttMs >= 0
    ensures var outcome := EvaluateFastPathGuard(isFresh, localNow, s, cached, config, maxStaleness);
            var now, speaks := localNow + s.offsetMs, MaySpeak(isFresh, cached, maxStaleness);
            && (outcome == NotStarted(now) <==>
                  && speaks
                  && now + config < cached.value.startsAtMs && now + 4 * s.rttMs < cached.value.startsAtMs)
            && (outcome == Ended(now) <==>
                  && speaks
                  && cached.value.endsAtMs + config <= now && cached.value.endsAtMs + 4 * s.rttMs <= now)
            && (outcome.Silent? || outcome == NotStarted(now) || outcome == Ended(now))
  {
  }

  /** When the clock may be used, and what it then says. */
  lemma ReadersMean(clock: RedisAnchoredClock, localNow: int, maxStaleness: int)
    requires clock.Valid()
    ensures clock.IsFresh(localNow, maxStaleness) <==>
              clock.samples != [] && localNow - clock.lastSyncAtMs.value <= maxStaleness
    ensures clock.samples != [] ==> ClockSample(clock.OffsetMs(), clock.RttMs()) == clock.best.value
    ensures clock.samples == [] ==> clock.OffsetMs() == 0 && clock.RttMs() == 0
  {
  }

  /** How far the corrected clock can be from the server's, at any instant `t`. */
  lemma CorrectedClockError(x: Exchange, drift: real, t: real)
    requires Proper(x)
    ensures var s := SampleOf(x, drift);
            var server, corrected := (t + drift).Floor, t.Floor + s.offsetMs;
            && 0 <= s.rttMs
            && 2 * (server - corrected) <= s.rttMs + 2
            && 2 * (corrected - server) <= s.rttMs + 3
  {
    var whole := drift.Floor;
    assert whole as real <= drift < (whole + 1) as real;
    FloorShift(x.sent, drift);
    FloorShift(x.received, drift);
    FloorShift(t, drift);
    FloorMonotone(x.sent, x.received);
    FloorMonotone(x.sent + drift, x.read + drift);
    FloorMonotone(x.read + drift, x.received + drift);
  }

  lemma FloorShift(t: real, drift: real)
    ensures t.Floor + drift.Floor <= (t + drift).Floor <= t.Floor + drift.Floor + 1
  {
  }

  lemma FloorMonotone(a: real, b: real)
    requires a <= b
    ensures a.Floor <= b.Floor
  {
  }

  /** The offset is the midpoint's, rounded to a whole millisecond, halves up. */
  lemma OffsetIsRounded(t0: int, t1: int, serverTimeMs: int)
    ensures var s := SampleFrom(t0, t1, serverTimeMs);
            && s.rttMs == t1 - t0
            && 0 <= 2 * s.offsetMs - (2 * serverTimeMs - t0 - t1) <= 1
  {
  }

  /** The sample in use is the oldest of those with the least round trip. */
  lemma BestIsFirstLowest(clock: RedisAnchoredClock)
    requires clock.Valid() && clock.best.Some?
    ensures exists k :: 0 <= k < |clock.samples| && clock.samples[k] == clock.best.value
                        && (forall j :: 0 <= j < k ==> clock.samples[j].rttMs > clock.best.value.rttMs)
                        && (forall j :: k < j < |clock.samples| ==> clock.samples[j].rttMs >= clock.best.value.rttMs)
  {
  }

  /** With readings exact to the millisecond the offset is within (rtt + 1) / 2 of the drift. */
  lemma OffsetError(t0: int, read: int, t1: int, drift: int)
    requires t0 <= read <= t1
    ensures var s := SampleFrom(t0, t1, read + drift);
            -(s.rttMs + 1) <= 2 * (s.offsetMs - drift) <= s.rttMs + 1
  {
  }

  /** The guard's answer is the one the purchase script would give at the same instant. */
  predicate AgreesWithScript(outcome: GuardOutcome, server: int, startsAtMs: int, endsAtMs: int) {
    match outcome
    case Silent => true
    case NotStarted(_) => server < startsAtMs
    case Ended(_) => server >= endsAtMs
  }

  /** One use of the guard: an exchange, the instant of the request, and a fresh cached window. */
  datatype Use = Use(x: Exchange, drift: real, t: real, startsAtMs: int, endsAtMs: int)

  predicate SafeUse(u: Use, config: nat) {
    AgreesWithScript(
      EvaluateFastPathGuard(true, u.t.Floor, SampleOf(u.x, u.drift),
                            Some(Cached(true, u.startsAtMs, u.endsAtMs, 0)), config, 0),
      (u.t + u.drift).Floor, u.startsAtMs, u.endsAtMs)
  }

  /** With a positive margin the guard never rejects what the script would accept. */
  lemma PositiveSkewIsSafe(u: Use, config: nat)
    requires Proper(u.x) && Skew(config, SampleOf(u.x, u.drift).rttMs) >= 1
    ensures SafeUse(u, config)
  {
    CorrectedClockError(u.x, u.drift, u.t);
  }

  /** Far enough outside the window the guard does reject, whatever the exchange. */
  lemma GuardRejectsFarOutside(u: Use, config: nat)
    requires Proper(u.x) && u.startsAtMs <= u.endsAtMs
    ensures var rtt, server := SampleOf(u.x, u.drift).rttMs, (u.t + u.drift).Floor;
            var outcome := EvaluateFastPathGuard(
                             true, u.t.Floor, SampleOf(u.x, u.drift),
                             Some(Cached(true, u.startsAtMs, u.endsAtMs, 0)), config, 0);
            && (server + config + rtt + 2 < u.startsAtMs && server + 5 * rtt + 2 < u.startsAtMs ==> outcome.NotStarted?)
            && (server >= u.endsAtMs + config + rtt + 2 && server >= u.endsAtMs + 5 * rtt + 2 ==> outcome.Ended?)
  {
    CorrectedClockError(u.x, u.drift, u.t);
  }

  /** A round trip inside one local millisecond, half a millisecond of drift, and no margin. */
  const WRONG_REJECTION := Use(Exchange(0.1, 0.1, 0.1), 0.5, 0.6, 1, 2)

  lemma ZeroSkewRejectsWrongly()
    ensures Proper(WRONG_REJECTION.x) && WRONG_REJECTION.startsAtMs < WRONG_REJECTION.endsAtMs
    ensures !SafeUse(WRONG_REJECTION, 0)
  {
    var u := WRONG_REJECTION;
    assert u.x.sent.Floor == 0 && u.x.received.Floor == 0;
    assert (u.x.read + u.drift).Floor == 0;
    assert SampleOf(u.x, u.drift) == ClockSample(0, 0);
    assert u.t.Floor == 0 && (u.t + u.drift).Floor == 1;
  }

  /** The guard is safe for every exchange and every request exactly when some margin is configured. */
  lemma GuardIsSafeIff(config: nat)
    ensures (forall u: Use :: Proper(u.x) ==> SafeUse(u, config)) <==> config >= 1
  {
    if config >= 1 {
      forall u: Use | Proper(u.x) ensures SafeUse(u, config) {
        PositiveSkewIsSafe(u, config);
      }
    } else {
      ZeroSkewRejectsWrongly();
    }
  }

  /**
   * In the terms of purchase.lua: with a configured margin, a clock fed only by real exchanges
   * and a cached window that is the seeded one, a guarded rejection is the code the script
   * would have returned at the same instant.
   */
  lemma GuardMatchesScript(
      clock: RedisAnchoredClock, drift: real, t: real, r: Redis, cached: Option<Cached>,
      config: nat, maxStaleness: int, user: UserId, id: ReservationId)
    requires clock.Valid() && clock.AllHonest(drift)
    requires config >= 1 || (clock.best.Some? && clock.RttMs() >= 1)
    requires r.config.Some? && r.config.value.startsAtMs < r.config.value.endsAtMs && (t + drift).Floor >= 0
    requires cached.Some? ==> IsWindowOf(cached.value, r.config.value)
    ensures var sample := ClockSample(clock.OffsetMs(), clock.RttMs());
            var outcome := EvaluateFastPathGuard(
                             clock.IsFresh(t.Floor, maxStaleness), t.Floor, sample, cached, config, maxStaleness);
            var code := Scripts.Purchase(r, user, id, (t + drift).Floor).0.code;
            (match outcome
             case Silent => true
             case NotStarted(_) => code == Scripts.SaleNotStarted
             case Ended(_) => code == Scripts.SaleEnded)
  {
    if clock.best.Some? {
      assert clock.best.value in clock.samples;
      var x :| Proper(x) && clock.best.value == SampleOf(x, drift);
      CorrectedClockError(x, drift, t);
    }
  }

  predicate IsWindowOf(c: Cached, config: Config) {
    c.initialized ==> c.startsAtMs == config.startsAtMs && c.endsAtMs == config.endsAtMs
  }
}

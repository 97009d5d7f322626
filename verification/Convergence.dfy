// The auditor's polling loop: collect until the system has been still for long enough.
module Convergence {
  import opened Types

  const STABLE_INTERVAL_MS := 250.0
  const INITIAL_BACKOFF_MS := 100
  const MAX_BACKOFF_MS := 2000

  /**
   * A collection in the trace: its snapshot, or `None` if it failed, when the deadline was
   * looked at after it, and its time stamp.
   */
  datatype Sample<S> = Sample(result: Option<S>, judged: real, at: real)

  datatype Evidence<S> = Evidence(
    snapshot: S,
    elapsedMs: real,
    matchingSnapshots: nat,
    stableIntervalMs: real,
    successfulCollections: nat,
    collectionFailures: nat)

  /**
   * The world being audited: a clock that never steps back and a collector that may fail.
   * `trace` holds every collection made and `asks` every delay asked for.
   */
  class Probe<S> {
    var clock: real
    ghost var trace: seq<Sample<S>>
    ghost var asks: seq<real>

    constructor ()
      ensures trace == [] && asks == []
    {
      clock, trace, asks := 0.0, [], [];
    }

    method Pass()
      modifies this`clock
      ensures clock >= old(clock)
    {
      var elapsed: real := *;
      if elapsed > 0.0 {
        clock := clock + elapsed;
      }
    }

    method Now() returns (t: real)
      modifies this`clock
      ensures old(clock) <= t <= clock
    {
      Pass();
      t := clock;
    }

    method Collect() returns (result: Option<S>)
      modifies this`clock
      ensures clock >= old(clock)
    {
      Pass();
      result := *;
    }

    /** Collects once, looks at the deadline, and stamps the collection. */
    method CollectOne(deadlineMs: real, startedAt: real)
      returns (snapshot: Option<S>, expired: bool, judged: real, at: real)
      modifies this`clock, this`trace
      ensures trace == old(trace) + [Sample(snapshot, judged, at)]
      ensures old(clock) <= judged <= at <= clock
      ensures expired <==> judged - startedAt >= deadlineMs
    {
      snapshot := Collect();
      judged := Now();
      expired := deadlineMs - (judged - startedAt) <= 0.0;
      at := Now();
      trace := trace + [Sample(snapshot, judged, at)];
    }

    method Delay(ms: real)
      modifies this`clock, this`asks
      ensures clock >= old(clock) + ms && clock >= old(clock)
      ensures asks == old(asks) + [ms]
    {
      asks := asks + [ms];
      clock := if ms > 0.0 then clock + ms else clock;
      Pass();
    }
  }

  function Successes<S>(trace: seq<Sample<S>>): nat {
    if trace == [] then 0
    else Successes(trace[..|trace| - 1]) + if trace[|trace| - 1].result.Some? then 1 else 0
  }

  function Failures<S>(trace: seq<Sample<S>>): nat {
    if trace == [] then 0
    else Failures(trace[..|trace| - 1]) + if trace[|trace| - 1].result.None? then 1 else 0
  }

  lemma {:induction false} EveryCollectionCounts<S>(trace: seq<Sample<S>>)
    ensures Successes(trace) + Failures(trace) == |trace|
  {
    if trace != [] {
      EveryCollectionCounts(trace[..|trace| - 1]);
    }
  }

  /** From `start` on, every collection succeeded, converged and printed the same. */
  ghost predicate Still<S(!new)>(
      trace: seq<Sample<S>>, start: nat, converged: S -> bool, fingerprint: S -> string, text: string)
  {
    forall i :: start <= i < |trace| ==>
      && trace[i].result.Some?
      && converged(trace[i].result.value)
      && fingerprint(trace[i].result.value) == text
  }

  /** A candidate: still since the collection that proposed it, at `at`. */
  ghost predicate Standing<S(!new)>(
      trace: seq<Sample<S>>, start: nat, at: real, converged: S -> bool, fingerprint: S -> string, text: string)
  {
    start < |trace| && trace[start].at == at && Still(trace, start, converged, fingerprint, text)
  }

  /** What a returned result says about everything that was observed. */
  ghost predicate Justifies<S(!new)>(
      trace: seq<Sample<S>>, e: Evidence<S>, start: nat, converged: S -> bool, fingerprint: S -> string)
  {
    var n := |trace|;
    && start + 3 <= n
    && trace[n - 1].result == Some(e.snapshot)
    && Still(trace, start, converged, fingerprint, fingerprint(e.snapshot))
    && e.stableIntervalMs == trace[n - 2].at - trace[start].at
    && e.stableIntervalMs >= 250.0
    && e.matchingSnapshots == 2
    && e.successfulCollections == Successes(trace)
    && e.collectionFailures == Failures(trace)
    && e.successfulCollections + e.collectionFailures == n
  }

  /** The final collection of a candidate that has stood long enough settles the matter. */
  lemma Concludes<S(!new)>(
      trace: seq<Sample<S>>, start: nat, second: Sample<S>, final: Sample<S>,
      converged: S -> bool, fingerprint: S -> string, text: string, interval: real, elapsed: real)
    requires Standing(trace, start, second.at - interval, converged, fingerprint, text)
    requires interval >= STABLE_INTERVAL_MS
    requires second.result.Some? && converged(second.result.value) && fingerprint(second.result.value) == text
    requires final.result.Some? && converged(final.result.value) && fingerprint(final.result.value) == text
    ensures var all := trace + [second] + [final];
            Justifies(all, Evidence(final.result.value, elapsed, 2, interval, Successes(all), Failures(all)),
                      start, converged, fingerprint)
  {
    EveryCollectionCounts(trace + [second] + [final]);
  }

  /** A bound on how many more times the loop can sleep. */
  function Budget(remaining: real): nat {
    if remaining <= 0.0 then 0 else 1 + remaining.Floor
  }

  lemma BudgetDrops(before: real, after: real)
    requires before > 0.0
    requires after <= 0.0 || after <= before - 100.0
    ensures Budget(after) < Budget(before)
  {
  }

  lemma CountStep<S>(trace: seq<Sample<S>>, s: Sample<S>)
    ensures Successes(trace + [s]) == Successes(trace) + if s.result.Some? then 1 else 0
    ensures Failures(trace + [s]) == Failures(trace) + if s.result.None? then 1 else 0
  {
    assert (trace + [s])[..|trace|] == trace;
  }

  // ---------- what the loop must not miss ----------

  /** The collections `from` to `to` all succeeded, converged and printed the same. */
  ghost predicate Uniform<S(!new)>(
      trace: seq<Sample<S>>, from: int, to: int, converged: S -> bool, fingerprint: S -> string)
  {
    && 0 <= from <= to < |trace|
    && trace[to].result.Some?
    && forall i :: from <= i <= to ==>
         && trace[i].result.Some?
         && converged(trace[i].result.value)
         && fingerprint(trace[i].result.value) == fingerprint(trace[to].result.value)
  }

  /** The system has been still long enough for the collection after `to` to be the final one. */
  ghost predicate Due<S(!new)>(
      trace: seq<Sample<S>>, from: int, to: int, converged: S -> bool, fingerprint: S -> string)
  {
    && 0 <= from < to
    && Uniform(trace, from, to, converged, fingerprint)
    && trace[to].at - trace[from + 1].at >= 250.0
  }

  /**
   * Evidence that a result should have been found: a run of like collections, long enough
   * even without its first one, and one more like collection within the deadline.
   */
  ghost predicate Missed<S(!new)>(
      trace: seq<Sample<S>>, from: int, to: int, deadline: real, converged: S -> bool, fingerprint: S -> string)
  {
    && Due(trace, from, to, converged, fingerprint)
    && Uniform(trace, from, to + 1, converged, fingerprint)
    && trace[to + 1].judged < deadline
  }

  ghost predicate NothingMissed<S(!new)>(
      trace: seq<Sample<S>>, deadline: real, converged: S -> bool, fingerprint: S -> string)
  {
    forall from, to :: !Missed(trace, from, to, deadline, converged, fingerprint)
  }

  ghost predicate OpenRun<S(!new)>(
      trace: seq<Sample<S>>, from: int, converged: S -> bool, fingerprint: S -> string)
  {
    Uniform(trace, from, |trace| - 1, converged, fingerprint)
  }

  ghost predicate DueNow<S(!new)>(
      trace: seq<Sample<S>>, from: int, converged: S -> bool, fingerprint: S -> string)
  {
    Due(trace, from, |trace| - 1, converged, fingerprint)
  }

  ghost predicate NothingDue<S(!new)>(trace: seq<Sample<S>>, converged: S -> bool, fingerprint: S -> string) {
    forall from :: !DueNow(trace, from, converged, fingerprint)
  }

  /** No run of like collections that is still going on began before `since - 1`. */
  ghost predicate Since<S(!new)>(
      trace: seq<Sample<S>>, since: nat, converged: S -> bool, fingerprint: S -> string)
  {
    forall from :: OpenRun(trace, from, converged, fingerprint) ==> since <= from + 1
  }

  ghost predicate InOrder<S>(trace: seq<Sample<S>>, present: real) {
    && (forall i, j :: 0 <= i <= j < |trace| ==> trace[i].at <= trace[j].at)
    && (forall i :: 0 <= i < |trace| ==> trace[i].at <= present)
  }

  lemma OrderGrows<S>(trace: seq<Sample<S>>, x: Sample<S>, before: real, after: real)
    requires InOrder(trace, before) && before <= x.at <= after
    ensures InOrder(trace + [x], after)
  {
  }

  /** A run that reaches the new collection reached the one before it, and printed the same. */
  lemma RunBefore<S(!new)>(
      trace: seq<Sample<S>>, x: Sample<S>, from: int, to: int, converged: S -> bool, fingerprint: S -> string)
    requires 0 <= from <= to < |trace|
    ensures Uniform(trace + [x], from, to, converged, fingerprint) <==> Uniform(trace, from, to, converged, fingerprint)
    ensures Uniform(trace + [x], from, to + 1, converged, fingerprint) && to + 1 == |trace| ==>
              && Uniform(trace, from, to, converged, fingerprint)
              && x.result.Some? && converged(x.result.value)
              && fingerprint(x.result.value) == fingerprint(trace[to].result.value)
  {
    var longer := trace + [x];
    assert forall i :: 0 <= i < |trace| ==> longer[i] == trace[i];
    if Uniform(longer, from, to + 1, converged, fingerprint) && to + 1 == |trace| {
      assert longer[to + 1] == x && longer[to] == trace[to];
    }
  }

  /** One more collection misses nothing, unless one was due that it should have been. */
  lemma MissesNothing<S(!new)>(
      trace: seq<Sample<S>>, x: Sample<S>, deadline: real, converged: S -> bool, fingerprint: S -> string)
    requires NothingMissed(trace, deadline, converged, fingerprint)
    requires || NothingDue(trace, converged, fingerprint)
             || x.judged >= deadline
             || (&& trace != [] && trace[|trace| - 1].result.Some?
                 && !(x.result.Some? && converged(x.result.value)
                      && fingerprint(x.result.value) == fingerprint(trace[|trace| - 1].result.value)))
    ensures NothingMissed(trace + [x], deadline, converged, fingerprint)
  {
    var longer := trace + [x];
    forall from, to ensures !Missed(longer, from, to, deadline, converged, fingerprint) {
      if 0 <= from < to && to + 1 < |longer| {
        RunBefore(trace, x, from, to, converged, fingerprint);
        if to + 1 < |trace| {
          RunBefore(trace, x, from, to + 1, converged, fingerprint);
          assert !Missed(trace, from, to, deadline, converged, fingerprint);
        } else {
          RunBefore(trace, x, from, to, converged, fingerprint);
          assert !DueNow(trace, from, converged, fingerprint) || longer[to + 1] == x;
        }
      }
    }
  }

  /** The new collection is no continuation of what came before it. */
  ghost predicate BreaksOff<S(!new)>(
      trace: seq<Sample<S>>, x: Sample<S>, converged: S -> bool, fingerprint: S -> string)
  {
    || x.result.None?
    || !converged(x.result.value)
    || (&& trace != [] && trace[|trace| - 1].result.Some?
        && fingerprint(x.result.value) != fingerprint(trace[|trace| - 1].result.value))
  }

  lemma RunBreaks<S(!new)>(trace: seq<Sample<S>>, x: Sample<S>, converged: S -> bool, fingerprint: S -> string)
    requires BreaksOff(trace, x, converged, fingerprint)
    ensures Since(trace + [x], |trace| + 1, converged, fingerprint)
    ensures NothingDue(trace + [x], converged, fingerprint)
  {
    var longer := trace + [x];
    forall from | OpenRun(longer, from, converged, fingerprint) ensures from == |trace| {
      assert longer[|trace|] == x;
      if from < |trace| {
        RunBefore(trace, x, from, |trace| - 1, converged, fingerprint);
      }
    }
    forall from ensures DueNow(longer, from, converged, fingerprint) ==> OpenRun(longer, from, converged, fingerprint) {
    }
  }

  lemma RunBegins<S(!new)>(trace: seq<Sample<S>>, x: Sample<S>, converged: S -> bool, fingerprint: S -> string)
    requires Since(trace, |trace|, converged, fingerprint)
    ensures Since(trace + [x], |trace|, converged, fingerprint)
    ensures NothingDue(trace + [x], converged, fingerprint)
  {
    var longer := trace + [x];
    forall from | OpenRun(longer, from, converged, fingerprint) ensures |trace| <= from + 1 {
      if from < |trace| {
        RunBefore(trace, x, from, |trace| - 1, converged, fingerprint);
        assert OpenRun(trace, from, converged, fingerprint);
      }
    }
    forall from ensures DueNow(longer, from, converged, fingerprint) ==> OpenRun(longer, from, converged, fingerprint) {
    }
  }

  lemma RunContinues<S(!new)>(
      trace: seq<Sample<S>>, x: Sample<S>, start: nat, present: real,
      converged: S -> bool, fingerprint: S -> string)
    requires Since(trace, start, converged, fingerprint) && start < |trace| && InOrder(trace + [x], present)
    ensures Since(trace + [x], start, converged, fingerprint)
    ensures x.at - trace[start].at < STABLE_INTERVAL_MS ==> NothingDue(trace + [x], converged, fingerprint)
  {
    var longer := trace + [x];
    forall from | OpenRun(longer, from, converged, fingerprint) ensures start <= from + 1 {
      if from < |trace| {
        RunBefore(trace, x, from, |trace| - 1, converged, fingerprint);
        assert OpenRun(trace, from, converged, fingerprint);
      }
    }
    assert longer[start] == trace[start] && longer[|trace|] == x;
    forall from ensures DueNow(longer, from, converged, fingerprint) ==> OpenRun(longer, from, converged, fingerprint) {
    }
  }

  // ---------- what the loop keeps ----------

  /** What the loop remembers: the text and the time of a candidate. */
  datatype Candidate = NoCandidate | Candidate(text: string, at: real)

  /** The candidate stands since `start`, and nothing has been missed for want of it. */
  ghost predicate Held<S(!new)>(
      trace: seq<Sample<S>>, c: Candidate, start: nat, deadline: real, present: real,
      converged: S -> bool, fingerprint: S -> string)
  {
    && InOrder(trace, present)
    && NothingMissed(trace, deadline, converged, fingerprint)
    && NothingDue(trace, converged, fingerprint)
    && Since(trace, if c.Candidate? then start else |trace|, converged, fingerprint)
    && (c.Candidate? ==> Standing(trace, start, c.at, converged, fingerprint, c.text))
  }

  ghost predicate Good<S(!new)>(x: Sample<S>, converged: S -> bool) {
    x.result.Some? && converged(x.result.value)
  }

  lemma HeldReset<S(!new)>(
      trace: seq<Sample<S>>, x: Sample<S>, c: Candidate, start: nat, deadline: real, before: real, after: real,
      converged: S -> bool, fingerprint: S -> string)
    requires Held(trace, c, start, deadline, before, converged, fingerprint)
    requires !Good(x, converged) && before <= x.at <= after
    ensures Held(trace + [x], NoCandidate, start, deadline, after, converged, fingerprint)
  {
    OrderGrows(trace, x, before, after);
    MissesNothing(trace, x, deadline, converged, fingerprint);
    RunBreaks(trace, x, converged, fingerprint);
  }

  lemma HeldAnew<S(!new)>(
      trace: seq<Sample<S>>, x: Sample<S>, c: Candidate, start: nat, deadline: real, before: real, after: real,
      converged: S -> bool, fingerprint: S -> string)
    requires Held(trace, c, start, deadline, before, converged, fingerprint)
    requires Good(x, converged) && before <= x.at <= after
    requires c.NoCandidate? || fingerprint(x.result.value) != c.text
    ensures Held(trace + [x], Candidate(fingerprint(x.result.value), x.at), |trace|, deadline, after,
                 converged, fingerprint)
  {
    OrderGrows(trace, x, before, after);
    MissesNothing(trace, x, deadline, converged, fingerprint);
    if c.NoCandidate? {
      RunBegins(trace, x, converged, fingerprint);
    } else {
      RunBreaks(trace, x, converged, fingerprint);
    }
    assert Standing(trace + [x], |trace|, x.at, converged, fingerprint, fingerprint(x.result.value));
  }

  lemma HeldOn<S(!new)>(
      trace: seq<Sample<S>>, x: Sample<S>, c: Candidate, start: nat, deadline: real, before: real, after: real,
      converged: S -> bool, fingerprint: S -> string)
    requires Held(trace, c, start, deadline, before, converged, fingerprint)
    requires Good(x, converged) && before <= x.at <= after
    requires c.Candidate? && fingerprint(x.result.value) == c.text && x.at - c.at < STABLE_INTERVAL_MS
    ensures Held(trace + [x], c, start, deadline, after, converged, fingerprint)
  {
    OrderGrows(trace, x, before, after);
    MissesNothing(trace, x, deadline, converged, fingerprint);
    RunContinues(trace, x, start, after, converged, fingerprint);
  }

  /** The final collection has been made and does not repeat the candidate. */
  lemma HeldUnmatched<S(!new)>(
      trace: seq<Sample<S>>, x: Sample<S>, y: Sample<S>, c: Candidate, start: nat, deadline: real,
      before: real, after: real, converged: S -> bool, fingerprint: S -> string)
    requires Held(trace, c, start, deadline, before, converged, fingerprint)
    requires Good(x, converged) && before <= x.at <= y.at <= after
    requires c.Candidate? && fingerprint(x.result.value) == c.text
    requires !Good(y, converged) || fingerprint(y.result.value) != c.text
    ensures Held(trace + [x] + [y], NoCandidate, start, deadline, after, converged, fingerprint)
  {
    OrderGrows(trace, x, before, y.at);
    OrderGrows(trace + [x], y, y.at, after);
    MissesNothing(trace, x, deadline, converged, fingerprint);
    assert (trace + [x])[|trace|] == x;
    MissesNothing(trace + [x], y, deadline, converged, fingerprint);
    RunBreaks(trace + [x], y, converged, fingerprint);
  }

  /** A collection after the deadline misses nothing, wherever it comes. */
  lemma HeldLate<S(!new)>(
      trace: seq<Sample<S>>, x: Sample<S>, c: Candidate, start: nat, deadline: real, present: real,
      converged: S -> bool, fingerprint: S -> string)
    requires Held(trace, c, start, deadline, present, converged, fingerprint)
    ensures NothingMissed(trace + [x], deadline, converged, fingerprint)
    ensures forall y: Sample<S> | y.judged >= deadline ::
              NothingMissed(trace + [x] + [y], deadline, converged, fingerprint)
  {
    MissesNothing(trace, x, deadline, converged, fingerprint);
    forall y: Sample<S> | y.judged >= deadline
      ensures NothingMissed(trace + [x] + [y], deadline, converged, fingerprint)
    {
      MissesNothing(trace + [x], y, deadline, converged, fingerprint);
    }
  }

  lemma HeldLater<S(!new)>(
      trace: seq<Sample<S>>, c: Candidate, start: nat, deadline: real, before: real, after: real,
      converged: S -> bool, fingerprint: S -> string)
    requires Held(trace, c, start, deadline, before, converged, fingerprint) && before <= after
    ensures Held(trace, c, start, deadline, after, converged, fingerprint)
  {
  }

  /** Sleeps for the backoff or for what is left, and grows the backoff. */
  method SleepForRetry<S>(probe: Probe<S>, deadlineMs: real, startedAt: real, backoffMs: nat)
    returns (nextBackoffMs: nat)
    requires INITIAL_BACKOFF_MS <= backoffMs <= MAX_BACKOFF_MS
    modifies probe`clock, probe`asks
    ensures 100 <= nextBackoffMs <= 2000
    ensures nextBackoffMs == 2000 || 3 * backoffMs <= 2 * nextBackoffMs <= 3 * backoffMs + 1
    ensures nextBackoffMs == 2000 ==> 3 * backoffMs + 1 >= 4000
    ensures || (probe.asks == old(probe.asks) && probe.clock >= startedAt + deadlineMs)
            || (exists ms :: probe.asks == old(probe.asks) + [ms] && 0.0 < ms <= backoffMs as real)
    ensures old(probe.clock) <= probe.clock
    ensures var left := deadlineMs - (probe.clock - startedAt);
            left <= 0.0 || left <= deadlineMs - (old(probe.clock) - startedAt) - backoffMs as real
  {
    var now := probe.Now();
    var remaining := deadlineMs - (now - startedAt);
    var ms := if remaining <= 0.0 then 0.0
              else if (backoffMs as real) < remaining then backoffMs as real else remaining;
    var grown := (3 * backoffMs + 1) / 2;
    nextBackoffMs := if grown < MAX_BACKOFF_MS then grown else MAX_BACKOFF_MS;
    if ms > 0.0 {
      probe.Delay(ms);
    }
  }

  /** The live collection that has to repeat a standing candidate before the deadline. */
  method FinalCollection<S(!new)>(
      probe: Probe<S>, deadlineMs: real, startedAt: real,
      converged: S -> bool, fingerprint: S -> string, text: string)
    returns (expired: bool, matches: bool, final: Sample<S>, elapsedMs: real)
    modifies probe`clock, probe`trace
    ensures old(probe.clock) <= probe.clock
    ensures expired ==> probe.clock >= startedAt + deadlineMs
    ensures expired ==>
              || probe.trace == old(probe.trace)
              || (probe.trace == old(probe.trace) + [final] && final.judged >= startedAt + deadlineMs)
    ensures old(probe.clock) <= final.at <= probe.clock
    ensures !expired ==>
              && probe.trace == old(probe.trace) + [final]
              && final.judged < startedAt + deadlineMs
              && final.at <= startedAt + elapsedMs <= probe.clock
    ensures matches <==>
              !expired && final.result.Some? && converged(final.result.value) && fingerprint(final.result.value) == text
  {
    matches, elapsedMs := false, 0.0;
    var now := probe.Now();
    expired := deadlineMs - (now - startedAt) <= 0.0;
    final := Sample(None, now, now);
    if !expired {
      var snapshot, late, judged, at := probe.CollectOne(deadlineMs, startedAt);
      expired, final := late, Sample(snapshot, judged, at);
      var stop := probe.Now();
      elapsedMs := stop - startedAt;
      matches := !late && snapshot.Some? && converged(snapshot.value) && fingerprint(snapshot.value) == text;
    }
  }

  /** What one round of the loop comes to. */
  datatype Round<S> = Expired | Found(evidence: Evidence<S>) | Goes(candidate: Candidate)

  /** One round of `waitForConvergence`, up to its sleep. */
  method Observe<S(!new)>(
      probe: Probe<S>, deadlineMs: real, startedAt: real, converged: S -> bool, fingerprint: S -> string,
      candidate: Candidate, ghost start: nat, successes: nat, failures: nat)
    returns (round: Round<S>, ghost start': nat, successes': nat, failures': nat)
    requires successes == Successes(probe.trace) && failures == Failures(probe.trace)
    requires Held(probe.trace, candidate, start, startedAt + deadlineMs, probe.clock, converged, fingerprint)
    modifies probe`clock, probe`trace
    ensures old(probe.clock) <= probe.clock
    ensures round.Expired? ==>
              && probe.clock >= startedAt + deadlineMs
              && NothingMissed(probe.trace, startedAt + deadlineMs, converged, fingerprint)
    ensures round.Found? ==>
              && Justifies(probe.trace, round.evidence, start', converged, fingerprint)
              && probe.trace[|probe.trace| - 1].judged < startedAt + deadlineMs
              && probe.trace[|probe.trace| - 1].at <= startedAt + round.evidence.elapsedMs <= probe.clock
    ensures round.Goes? ==>
              && Held(probe.trace, round.candidate, start', startedAt + deadlineMs, probe.clock, converged, fingerprint)
              && successes' == Successes(probe.trace) && failures' == Failures(probe.trace)
  {
    ghost var trace, deadline, present := probe.trace, startedAt + deadlineMs, probe.clock;
    start', successes', failures' := start, successes, failures;
    var snapshot, expired, judgedAt, completedAt := probe.CollectOne(deadlineMs, startedAt);
    ghost var x := Sample(snapshot, judgedAt, completedAt);
    HeldLate(trace, x, candidate, start, deadline, present, converged, fingerprint);
    if expired {
      return Expired, start', successes', failures';
    }
    CountStep(trace, x);
    successes' := successes' + if snapshot.Some? then 1 else 0;
    failures' := failures' + if snapshot.None? then 1 else 0;
    if snapshot.None? || !converged(snapshot.value) {
      HeldReset(trace, x, candidate, start, deadline, present, probe.clock, converged, fingerprint);
      round := Goes(NoCandidate);
    } else if candidate.NoCandidate? || fingerprint(snapshot.value) != candidate.text {
      HeldAnew(trace, x, candidate, start, deadline, present, probe.clock, converged, fingerprint);
      round, start' := Goes(Candidate(fingerprint(snapshot.value), completedAt)), |trace|;
    } else if completedAt - candidate.at < STABLE_INTERVAL_MS {
      HeldOn(trace, x, candidate, start, deadline, present, probe.clock, converged, fingerprint);
      round := Goes(candidate);
    } else {
      var late, matches, final, elapsedMs :=
        FinalCollection(probe, deadlineMs, startedAt, converged, fingerprint, candidate.text);
      if late {
        return Expired, start', successes', failures';
      }
      CountStep(trace + [x], final);
      successes' := successes' + if final.result.Some? then 1 else 0;
      failures' := failures' + if final.result.None? then 1 else 0;
      if matches {
        Concludes(trace, start, x, final, converged, fingerprint, candidate.text,
                  completedAt - candidate.at, elapsedMs);
        round := Found(Evidence(final.result.value, elapsedMs, 2, completedAt - candidate.at,
                                successes', failures'));
      } else {
        HeldUnmatched(trace, x, final, candidate, start, deadline, present, probe.clock, converged, fingerprint);
        round := Goes(NoCandidate);
      }
    }
  }

  /** How long the `n`-th delay may be: half as long again as the one before, up to two seconds. */
  function Backoff(n: nat): nat {
    if n == 0 then 100 else
    var before := Backoff(n - 1);
    if 3 * before + 1 >= 4000 then 2000 else (3 * before + 1) / 2
  }

  /** The delays asked for keep to the backoff. */
  ghost predicate Patient(asks: seq<real>) {
    forall i :: 0 <= i < |asks| ==> 0.0 < asks[i] <= Backoff(i) as real
  }

  /** The sleep between two rounds, and the time that is left after it. */
  method Pause<S(!new)>(
      probe: Probe<S>, deadlineMs: real, startedAt: real, backoffMs: nat,
      ghost candidate: Candidate, ghost start: nat, ghost converged: S -> bool, ghost fingerprint: S -> string)
    returns (nextBackoffMs: nat, remaining: real)
    requires INITIAL_BACKOFF_MS <= backoffMs <= MAX_BACKOFF_MS
    requires Held(probe.trace, candidate, start, startedAt + deadlineMs, probe.clock, converged, fingerprint)
    requires Patient(probe.asks) && backoffMs == Backoff(|probe.asks|)
    modifies probe`clock, probe`asks
    ensures INITIAL_BACKOFF_MS <= nextBackoffMs <= MAX_BACKOFF_MS
    ensures Patient(probe.asks) && (remaining > 0.0 ==> nextBackoffMs == Backoff(|probe.asks|))
    ensures Held(probe.trace, candidate, start, startedAt + deadlineMs, probe.clock, converged, fingerprint)
    ensures remaining >= deadlineMs - (probe.clock - startedAt)
    ensures remaining <= 0.0 || remaining <= deadlineMs - (old(probe.clock) - startedAt) - 100.0
  {
    ghost var present := probe.clock;
    nextBackoffMs := SleepForRetry(probe, deadlineMs, startedAt, backoffMs);
    var now := probe.Now();
    remaining := deadlineMs - (now - startedAt);
    HeldLater(probe.trace, candidate, start, startedAt + deadlineMs, present, probe.clock, converged, fingerprint);
  }

  lemma HeldAtFirst<S(!new)>(deadline: real, present: real, converged: S -> bool, fingerprint: S -> string)
    ensures Held([], NoCandidate, 0, deadline, present, converged, fingerprint)
  {
  }

  /**
   * `waitForConvergence`. A result is justified by a suffix of the whole trace of
   * collections and its last collection beat the deadline. Without a result the deadline has
   * passed, and no run of like collections went on long enough before it. The loop always
   * ends, because every round but the last one sleeps at least the initial backoff.
   */
  method WaitForConvergence<S(!new)>(
      probe: Probe<S>, deadlineMs: real, converged: S -> bool, fingerprint: S -> string)
    returns (found: Option<Evidence<S>>, ghost start: nat, ghost began: real)
    requires probe.trace == [] && probe.asks == []
    modifies probe
    ensures old(probe.clock) <= began && Patient(probe.asks)
    ensures found.Some? ==>
              && Justifies(probe.trace, found.value, start, converged, fingerprint)
              && probe.trace[|probe.trace| - 1].judged < began + deadlineMs
              && probe.trace[|probe.trace| - 1].at <= began + found.value.elapsedMs <= probe.clock
    ensures found.None? ==>
              && probe.clock >= began + deadlineMs
              && NothingMissed(probe.trace, began + deadlineMs, converged, fingerprint)
  {
    start, found := 0, None;
    var startedAt := probe.Now();
    began := startedAt;
    var backoffMs := INITIAL_BACKOFF_MS;
    var candidate := NoCandidate;
    var successfulCollections, collectionFailures := 0, 0;
    var now := probe.Now();
    var remaining := deadlineMs - (now - startedAt);
    HeldAtFirst(startedAt + deadlineMs, probe.clock, converged, fingerprint);
    while remaining > 0.0
      invariant old(probe.clock) <= startedAt
      invariant remaining >= deadlineMs - (probe.clock - startedAt)
      invariant INITIAL_BACKOFF_MS <= backoffMs <= MAX_BACKOFF_MS
      invariant Patient(probe.asks) && (remaining > 0.0 ==> backoffMs == Backoff(|probe.asks|))
      invariant successfulCollections == Successes(probe.trace)
      invariant collectionFailures == Failures(probe.trace)
      invariant Held(probe.trace, candidate, start, startedAt + deadlineMs, probe.clock, converged, fingerprint)
      decreases Budget(remaining)
    {
      ghost var before := remaining;
      var round: Round<S>;
      round, start, successfulCollections, collectionFailures :=
        Observe(probe, deadlineMs, startedAt, converged, fingerprint, candidate, start,
                successfulCollections, collectionFailures);
      match round
      case Expired => return;
      case Found(evidence) =>
        found := Some(evidence);
        return;
      case Goes(next) => candidate := next;
      backoffMs, remaining :=
        Pause(probe, deadlineMs, startedAt, backoffMs, candidate, start, converged, fingerprint);
      BudgetDrops(before, remaining);
    }
  }
}

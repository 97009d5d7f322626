// The worker's lifecycle flags and the readiness probe that reads them.
//
// The lifecycle is a step machine: one action is one synchronous stretch of code between
// two awaits, so stop, consumer termination, passes and sweeps may fall between any two
// steps of the start sequence.
module Readiness {
  import opened Types

  const STALL_GRACE_CYCLES := 5

  /** The four flags of `ReconciliationState` that readiness depends on. */
  datatype Flags = Flags(
    bootstrapReconciled: bool, consumerReady: bool, reconciliationHealthy: bool, failureConfirmed: bool)

  const DOWN := Flags(false, false, false, true)

  // ---------- the probe ----------

  /** The health flag, softened while a routine failure is within its grace window. */
  function Gate(since: Option<int>, flags: Flags, now: int, interval: nat): (Option<int>, bool) {
    if flags.reconciliationHealthy then (None, true)
    else if flags.failureConfirmed then (None, false)
    else
      var start := if since.Some? then since.value else now;
      (Some(start), now - start <= interval * STALL_GRACE_CYCLES)
  }

  function ReadyAt(since: Option<int>, flags: Flags, now: int, interval: nat): bool {
    flags.bootstrapReconciled && flags.consumerReady && Gate(since, flags, now, interval).1
  }

  /** Ready exactly when started and either healthy or in a routine stall within its five intervals. */
  lemma ReadyIff(since: Option<int>, flags: Flags, now: int, interval: nat)
    ensures ReadyAt(since, flags, now, interval) <==>
              && flags.bootstrapReconciled && flags.consumerReady
              && (|| flags.reconciliationHealthy
                  || (!flags.failureConfirmed && (since.None? || now <= since.value + 5 * interval)))
  {
  }

  /** A confirmed failure is never answered with ready, however recent it is. */
  lemma ConfirmedIsNeverReady(since: Option<int>, flags: Flags, now: int, interval: nat)
    requires flags.failureConfirmed && !flags.reconciliationHealthy
    ensures !ReadyAt(since, flags, now, interval)
    ensures Gate(since, flags, now, interval).0 == None
  {
  }

  class HealthService {
    const interval: nat
    var unhealthySinceMs: Option<int>

    constructor (interval: nat)
      ensures this.interval == interval && unhealthySinceMs == None
    {
      this.interval, unhealthySinceMs := interval, None;
    }

    method Readiness(state: Flags, now: int) returns (ok: bool, gated: bool)
      modifies this
      ensures unhealthySinceMs == Gate(old(unhealthySinceMs), state, now, interval).0
      ensures gated == Gate(old(unhealthySinceMs), state, now, interval).1
      ensures ok == ReadyAt(old(unhealthySinceMs), state, now, interval)
      ensures state.failureConfirmed && !state.reconciliationHealthy ==> !ok && !gated
      ensures state.reconciliationHealthy ==> gated && (ok <==> state.bootstrapReconciled && state.consumerReady)
    {
      gated := IsReconciliationHealthy(state, now);
      ok := state.bootstrapReconciled && state.consumerReady && gated;
    }

    method IsReconciliationHealthy(state: Flags, now: int) returns (healthy: bool)
      modifies this
      ensures (unhealthySinceMs, healthy) == Gate(old(unhealthySinceMs), state, now, interval)
    {
      if state.reconciliationHealthy {
        unhealthySinceMs := None;
        return true;
      }
      if state.failureConfirmed {
        unhealthySinceMs := None;
        return false;
      }
      if unhealthySinceMs.None? {
        unhealthySinceMs := Some(now);
      }
      healthy := now - unhealthySinceMs.value <= interval * STALL_GRACE_CYCLES;
    }
  }

  datatype Probe = Probe(flags: Flags, now: int)

  predicate Routine(f: Flags) {
    !f.reconciliationHealthy && !f.failureConfirmed
  }

  /** The service's field after a series of probes. */
  function SinceAfter(probes: seq<Probe>, interval: nat): Option<int> {
    if probes == [] then None
    else
      var last := probes[|probes| - 1];
      Gate(SinceAfter(probes[..|probes| - 1], interval), last.flags, last.now, interval).0
  }

  /** The grace window runs from the first probe of the current routine stall. */
  lemma {:induction false} StallBeginsAtFirst(probes: seq<Probe>, first: nat, interval: nat)
    requires first < |probes|
    requires first > 0 ==> !Routine(probes[first - 1].flags)
    requires forall i :: first <= i < |probes| ==> Routine(probes[i].flags)
    ensures SinceAfter(probes, interval) == Some(probes[first].now)
  {
    var before := probes[..|probes| - 1];
    if first < |before| {
      StallBeginsAtFirst(before, first, interval);
    } else if first > 0 {
      assert before[|before| - 1] == probes[first - 1];
    }
  }

  /** During one routine stall a probe is ready exactly until the grace window has passed. */
  lemma GraceIff(probes: seq<Probe>, first: nat, interval: nat)
    requires first < |probes|
    requires first > 0 ==> !Routine(probes[first - 1].flags)
    requires forall i :: first <= i < |probes| ==> Routine(probes[i].flags)
    ensures var last := probes[|probes| - 1];
            var inGrace := last.now - probes[first].now <= interval * STALL_GRACE_CYCLES;
            var ready := ReadyAt(SinceAfter(probes[..|probes| - 1], interval), last.flags, last.now, interval);
            ready <==> last.flags.bootstrapReconciled && last.flags.consumerReady && inGrace
  {
    StallBeginsAtFirst(probes, first, interval);
  }

  // ---------- the lifecycle ----------

  /** The await the start sequence is at. `degraded` is the boot diff's result. */
  datatype Phase =
    | Idle
    | Booting
    | BeforeConsumer(degraded: bool)
    | Starting(degraded: bool)
    | Resuming(degraded: bool)
    | Checking(degraded: bool)
    | AfterResume(degraded: bool)
    | Unlocking
    | Running
    | Retrying
    | CleaningUp
    | Failed

  /**
   * `pass` holds the health flag read when the pass in flight began. `bootDone` and
   * `resumed` record what the current start attempt has achieved.
   */
  datatype State = State(
    flags: Flags,
    phase: Phase,
    subscribed: bool,
    installed: bool,
    closing: bool,
    fatal: bool,
    pass: Option<bool>,
    sweeping: bool,
    bootDone: bool,
    resumed: bool)

  const INITIAL := State(Flags(false, false, false, false), Idle, false, false, false, false, None, false, false, false)

  datatype Action =
    | Start
    | BootPassed(degraded: bool)
    | Proceed
    | ConsumerStarted(ready: bool)
    | PauseRead(paused: bool)
    | Throws(planned: bool)
    | Terminate
    | Stop
    | PassBegins
    | PassEnds(degraded: bool)
    | PassThrows
    | SweepBegins
    | SweepEnds(unsafeCount: nat)
    | SweepThrows

  /** Nothing new is earned, and stop and termination stay as they were. */
  predicate Modest(s: State, t: State) {
    (t.bootDone ==> s.bootDone) && (t.resumed ==> s.resumed) && t.closing == s.closing && t.fatal == s.fatal
  }

  function Fail(s: State): (t: State)
    ensures Modest(s, t)
  {
    s.(flags := s.flags.(reconciliationHealthy := false, failureConfirmed := true))
  }

  /** The synchronous part of `cleanupHalfTransition`. */
  function CleanUp(s: State): (t: State)
    ensures Modest(s, t)
  {
    s.(flags := DOWN, installed := false, subscribed := false, phase := CleaningUp, resumed := false)
  }

  /** An error before the consumer was started. */
  function FailBoot(s: State, planned: bool): (t: State)
    ensures Modest(s, t)
  {
    var t := s.(subscribed := false);
    if s.closing && planned then t.(phase := Failed)
    else if s.closing then Fail(t).(phase := Failed)
    else Fail(t).(phase := Retrying)
  }

  function NextAttempt(s: State): (t: State)
    ensures Modest(s, t)
  {
    if s.closing then s.(phase := Failed)
    else s.(phase := Booting, bootDone := false, resumed := false)
  }

  function AfterThrow(s: State, planned: bool): (t: State)
    ensures Modest(s, t)
  {
    match s.phase
    case Booting => FailBoot(s, planned)
    case BeforeConsumer(_) => FailBoot(s, planned)
    case Starting(_) => CleanUp(s)
    case Resuming(_) => CleanUp(s)
    case Checking(_) => CleanUp(s)
    case AfterResume(_) => CleanUp(s)
    case Unlocking => if s.closing && planned then s.(phase := Failed) else CleanUp(s)
    case Retrying => s.(phase := Failed)
    case _ => s
  }

  function RaiseFlags(s: State, degraded: bool): (t: State)
    ensures Modest(s, t)
  {
    if s.closing || s.fatal then CleanUp(s)
    else s.(flags := Flags(true, true, !degraded, degraded), phase := Unlocking)
  }

  /** The awaited call returns and the code runs to its next await. */
  function AfterAwait(s: State): (t: State)
    ensures Modest(s, t)
  {
    match s.phase
    case BeforeConsumer(degraded) =>
      if s.closing then FailBoot(s, true) else s.(phase := Starting(degraded))
    case Resuming(degraded) =>
      if s.closing then CleanUp(s) else s.(phase := Checking(degraded))
    case AfterResume(degraded) => RaiseFlags(s, degraded)
    case Unlocking => s.(phase := Running)
    case Retrying => NextAttempt(s)
    case CleaningUp => (if s.closing then Fail(s) else s).(phase := Failed)
    case _ => s
  }

  /** Termination, stop, passes and sweeps, which may fall between any two steps of the start. */
  function Background(s: State, a: Action): (t: State)
    ensures t.bootDone == s.bootDone && t.resumed == s.resumed
    ensures (t.closing <==> s.closing || a.Stop?) && (s.fatal ==> t.fatal)
  {
    match a
    case Terminate =>
      if !s.subscribed then s
      else
        s.(flags := s.flags.(consumerReady := false, reconciliationHealthy := false, failureConfirmed := true),
           installed := false, fatal := true)
    case Stop => if s.closing then s else s.(closing := true, flags := DOWN, installed := false, subscribed := false)
    case PassBegins =>
      if s.closing || s.pass.Some? then s else s.(pass := Some(s.flags.reconciliationHealthy))
    case PassEnds(degraded) =>
      if s.pass.None? then s
      else
        var confirmed := s.flags.failureConfirmed && degraded && !s.pass.value;
        s.(flags := s.flags.(reconciliationHealthy := !degraded, failureConfirmed := confirmed), pass := None)
    case PassThrows => if s.pass.None? then s else Fail(s).(pass := None)
    case SweepBegins => if s.closing then s else s.(sweeping := true)
    case SweepEnds(n) =>
      if !s.sweeping then s else (if n > 0 then Fail(s) else s).(sweeping := false)
    case SweepThrows => if !s.sweeping then s else Fail(s).(sweeping := false)
    case _ => s
  }

  function Step(s: State, a: Action): State {
    match a
    case Start => if s.phase.Idle? then NextAttempt(s) else s
    case BootPassed(degraded) =>
      if !s.phase.Booting? then s
      else if s.closing then FailBoot(s, true)
      else
        s.(flags := s.flags.(bootstrapReconciled := false, consumerReady := false, reconciliationHealthy := false),
           subscribed := true, phase := BeforeConsumer(degraded), bootDone := true)
    case Proceed => AfterAwait(s)
    case ConsumerStarted(ready) =>
      if !s.phase.Starting? then s
      else if s.closing || s.fatal || !ready then CleanUp(s)
      else s.(installed := true, phase := Resuming(s.phase.degraded))
    case PauseRead(paused) =>
      if !s.phase.Checking? then s
      else if paused || s.closing || s.fatal then CleanUp(s)
      else s.(resumed := true, phase := AfterResume(s.phase.degraded))
    case Throws(planned) => AfterThrow(s, planned)
    case _ => Background(s, a)
  }

  function Run(s: State, actions: seq<Action>): State
    decreases |actions|
  {
    if actions == [] then s else Run(Step(s, actions[0]), actions[1..])
  }

  /** What each await of the start sequence presumes. */
  predicate Earned(p: Phase, bootDone: bool, resumed: bool) {
    match p
    case BeforeConsumer(_) => bootDone
    case Starting(_) => bootDone
    case Resuming(_) => bootDone
    case Checking(_) => bootDone
    case AfterResume(_) => bootDone && resumed
    case Unlocking => bootDone && resumed
    case Running => bootDone && resumed
    case _ => true
  }

  /** What the flags and the start sequence keep at every step. */
  predicate Inv(s: State) {
    && Earned(s.phase, s.bootDone, s.resumed)
    && (s.flags.bootstrapReconciled ==> (s.phase.Unlocking? || s.phase.Running?) && !s.closing)
    && (s.flags.consumerReady ==> s.flags.bootstrapReconciled && !s.fatal)
  }

  /** The invariant carries over, and neither termination nor stop is undone. */
  predicate Carries(s: State, t: State) {
    Inv(s) ==> Inv(t) && (s.fatal ==> t.fatal) && (s.closing ==> t.closing)
  }

  lemma CleanUpCarries(s: State)
    ensures Carries(s, CleanUp(s))
  {
  }

  lemma FailBootCarries(s: State, planned: bool)
    requires !s.phase.Unlocking? && !s.phase.Running?
    ensures Carries(s, FailBoot(s, planned))
  {
  }

  lemma NextAttemptCarries(s: State)
    requires !s.phase.Unlocking? && !s.phase.Running?
    ensures Carries(s, NextAttempt(s))
  {
  }

  lemma RaiseFlagsCarries(s: State, degraded: bool)
    requires s.phase.AfterResume?
    ensures Carries(s, RaiseFlags(s, degraded))
  {
  }

  lemma BackgroundCarries(s: State, a: Action)
    ensures Carries(s, Background(s, a))
  {
  }

  lemma AwaitsCarry(s: State)
    ensures Carries(s, AfterAwait(s))
  {
    match s.phase
    case BeforeConsumer(_) => FailBootCarries(s, true);
    case Resuming(_) => CleanUpCarries(s);
    case AfterResume(degraded) => RaiseFlagsCarries(s, degraded);
    case Retrying => NextAttemptCarries(s);
    case _ =>
  }

  lemma ThrowsCarry(s: State, planned: bool)
    ensures Carries(s, AfterThrow(s, planned))
  {
    CleanUpCarries(s);
    match s.phase
    case Booting => FailBootCarries(s, planned);
    case BeforeConsumer(_) => FailBootCarries(s, planned);
    case _ =>
  }

  lemma StepKeepsInv(s: State, a: Action)
    ensures Carries(s, Step(s, a))
  {
    match a
    case Start => if s.phase.Idle? { NextAttemptCarries(s); }
    case BootPassed(_) => if s.phase.Booting? { FailBootCarries(s, true); }
    case Proceed => AwaitsCarry(s);
    case ConsumerStarted(_) => CleanUpCarries(s);
    case PauseRead(_) => CleanUpCarries(s);
    case Throws(planned) => ThrowsCarry(s, planned);
    case _ => BackgroundCarries(s, a);
  }

  lemma {:induction false} RunKeepsInv(s: State, actions: seq<Action>)
    requires Inv(s)
    ensures var end := Run(s, actions); Inv(end) && (s.fatal ==> end.fatal) && (s.closing ==> end.closing)
    decreases |actions|
  {
    if actions != [] {
      StepKeepsInv(s, actions[0]);
      RunKeepsInv(Step(s, actions[0]), actions[1..]);
    }
  }

  /** Only the boot diff and the pause reading earn what readiness needs; stop always counts. */
  lemma StepRecords(s: State, a: Action)
    ensures var t := Step(s, a);
            && (t.bootDone && !s.bootDone ==> a.BootPassed?)
            && (t.resumed && !s.resumed ==> a == PauseRead(false))
            && (a.Stop? || s.closing ==> t.closing)
  {
  }

  lemma {:induction false} RunRecords(s: State, actions: seq<Action>)
    ensures var t := Run(s, actions);
            && (t.bootDone && !s.bootDone ==> exists degraded :: BootPassed(degraded) in actions)
            && (t.resumed && !s.resumed ==> PauseRead(false) in actions)
            && (Stop in actions || s.closing ==> t.closing)
    decreases |actions|
  {
    if actions != [] {
      StepRecords(s, actions[0]);
      RunRecords(Step(s, actions[0]), actions[1..]);
      assert actions == [actions[0]] + actions[1..];
    }
  }

  predicate ConsumerIsUp(p: Phase) {
    p.Resuming? || p.Checking? || p.AfterResume? || p.Unlocking? || p.Running?
  }

  /** From the boot diff on the worker listens for its run loop's end, and later runs its timers. */
  predicate Watched(s: State) {
    var listening := s.phase.BeforeConsumer? || s.phase.Starting? || ConsumerIsUp(s.phase);
    && (listening && !s.closing ==> s.subscribed)
    && (ConsumerIsUp(s.phase) && !s.closing && !s.fatal ==> s.installed)
  }

  lemma AwaitsKeepWatch(s: State)
    requires Watched(s)
    ensures Watched(AfterAwait(s))
  {
  }

  lemma ThrowsKeepWatch(s: State, planned: bool)
    requires Watched(s)
    ensures Watched(AfterThrow(s, planned))
  {
  }

  lemma BackgroundKeepsWatch(s: State, a: Action)
    requires Watched(s)
    ensures Watched(Background(s, a))
  {
  }

  lemma StepKeepsWatch(s: State, a: Action)
    requires Watched(s)
    ensures Watched(Step(s, a))
  {
    match a
    case Proceed => AwaitsKeepWatch(s);
    case Throws(planned) => ThrowsKeepWatch(s, planned);
    case _ => BackgroundKeepsWatch(s, a);
  }

  lemma {:induction false} RunKeepsWatch(s: State, actions: seq<Action>)
    requires Watched(s)
    ensures Watched(Run(s, actions))
    decreases |actions|
  {
    if actions != [] {
      StepKeepsWatch(s, actions[0]);
      RunKeepsWatch(Step(s, actions[0]), actions[1..]);
    }
  }

  /** A ready worker notices the end of its run loop, and is not ready from then on. */
  lemma TerminationIsNoticed(before: seq<Action>, later: seq<Action>, since: Option<int>, now: int, interval: nat)
    requires ReadyAt(since, Run(INITIAL, before).flags, now, interval)
    ensures var s := Run(INITIAL, before);
            && s.subscribed && s.installed && Step(s, Terminate).fatal
    ensures forall since', now' ::
              !ReadyAt(since', Run(Step(Run(INITIAL, before), Terminate), later).flags, now', interval)
  {
    var s := Run(INITIAL, before);
    RunKeepsInv(INITIAL, before);
    RunKeepsWatch(INITIAL, before);
    StepKeepsInv(s, Terminate);
    RunKeepsInv(Step(s, Terminate), later);
  }

  /** In every run, whatever the probe remembers, a ready answer means all of this. */
  lemma ReadyMeansBooted(actions: seq<Action>, since: Option<int>, now: int, interval: nat)
    requires ReadyAt(since, Run(INITIAL, actions).flags, now, interval)
    ensures exists degraded :: BootPassed(degraded) in actions
    ensures PauseRead(false) in actions
    ensures Run(INITIAL, actions).bootDone && Run(INITIAL, actions).resumed
    ensures Stop !in actions && !Run(INITIAL, actions).fatal
  {
    RunKeepsInv(INITIAL, actions);
    RunRecords(INITIAL, actions);
  }

  /** Once the run loop has terminated or stop has begun, no later probe is ready. */
  lemma DownIsFinal(before: seq<Action>, later: seq<Action>, since: Option<int>, now: int, interval: nat)
    requires var s := Run(INITIAL, before); s.fatal || s.closing
    ensures !ReadyAt(since, Run(Run(INITIAL, before), later).flags, now, interval)
  {
    RunKeepsInv(INITIAL, before);
    RunKeepsInv(Run(INITIAL, before), later);
  }

  /** A pass in flight when stop begins may still raise the health flag. */
  lemma HealthFlagMayRiseAfterStop(s: State)
    requires s.pass.Some?
    ensures var end := Run(s, [Stop, PassEnds(false)]);
            end.closing && end.flags.reconciliationHealthy && !end.flags.failureConfirmed
  {
    var stopped := Step(s, Stop);
    assert [Stop, PassEnds(false)][1..] == [PassEnds(false)];
    assert Run(stopped, [PassEnds(false)]) == Step(stopped, PassEnds(false));
  }

  /** A start sequence that nothing disturbs, up to its last step. */
  const UNDISTURBED: seq<Action> :=
    [Start, BootPassed(false), Proceed, ConsumerStarted(true), Proceed, PauseRead(false), Proceed]

  /** An undisturbed start on a clean diff makes the worker ready, and no shorter one does. */
  lemma {:induction false} ReadyAfterUndisturbedStart(n: nat, since: Option<int>, now: int, interval: nat)
    requires n <= |UNDISTURBED|
    ensures ReadyAt(since, Run(INITIAL, UNDISTURBED[..n]).flags, now, interval) <==> n == |UNDISTURBED|
  {
    var s1 := Step(INITIAL, Start);
    var s2 := Step(s1, BootPassed(false));
    var s3 := Step(s2, Proceed);
    var s4 := Step(s3, ConsumerStarted(true));
    var s5 := Step(s4, Proceed);
    var s6 := Step(s5, PauseRead(false));
    var states := [INITIAL, s1, s2, s3, s4, s5, s6, Step(s6, Proceed)];
    RunsThrough(INITIAL, UNDISTURBED[..n], states[..n + 1]);
  }

  lemma {:induction false} RunsThrough(s: State, actions: seq<Action>, states: seq<State>)
    requires |states| == |actions| + 1 && states[0] == s
    requires forall i :: 0 <= i < |actions| ==> states[i + 1] == Step(states[i], actions[i])
    ensures Run(s, actions) == states[|actions|]
    decreases |actions|
  {
    if actions != [] {
      RunsThrough(Step(s, actions[0]), actions[1..], states[1..]);
    }
  }

  // ---------- what each event does to readiness ----------

  /** Failures of the worker: they are reported at once, whatever the probe remembers. */
  lemma FailuresFailClosed(s: State, a: Action, since: Option<int>, now: int, interval: nat)
    requires || (a.PassThrows? && s.pass.Some?)
             || (a.SweepThrows? && s.sweeping)
             || (a.SweepEnds? && s.sweeping && a.unsafeCount > 0)
             || (a.Terminate? && s.subscribed)
             || (a.Stop? && !s.closing)
    ensures Step(s, a).flags.failureConfirmed && !Step(s, a).flags.reconciliationHealthy
    ensures !ReadyAt(since, Step(s, a).flags, now, interval)
  {
  }

  /**
   * A pass decides the health flag. A degraded pass gets grace only when it began healthy or
   * no failure was confirmed; a confirmed failure that persists stays confirmed.
   */
  lemma PassEndsMeans(s: State, degraded: bool)
    requires s.pass.Some?
    ensures var f := Step(s, PassEnds(degraded)).flags;
            && (f.reconciliationHealthy <==> !degraded)
            && (f.failureConfirmed <==> s.flags.failureConfirmed && degraded && s.pass == Some(false))
            && f.bootstrapReconciled == s.flags.bootstrapReconciled && f.consumerReady == s.flags.consumerReady
  {
  }

  /** A pass remembers the health that it began with. */
  lemma PassBeginsMeans(s: State)
    requires s.pass.None?
    ensures Step(s, PassBegins).pass == if s.closing then None else Some(s.flags.reconciliationHealthy)
  {
  }

  /** In a running worker a clean pass restores readiness. */
  lemma CleanPassRestores(s: State, since: Option<int>, now: int, interval: nat)
    requires s.pass.Some? && s.flags.bootstrapReconciled && s.flags.consumerReady
    ensures ReadyAt(since, Step(s, PassEnds(false)).flags, now, interval)
  {
  }

  /** The last step of a start: ready at once on a clean boot diff, and not at all on a degraded one. */
  lemma LastStepMeans(s: State, since: Option<int>, now: int, interval: nat)
    requires s.phase.AfterResume?
    ensures ReadyAt(since, Step(s, Proceed).flags, now, interval) <==>
              !s.closing && !s.fatal && !s.phase.degraded
    ensures !s.closing && !s.fatal ==>
              Step(s, Proceed).flags == Flags(true, true, !s.phase.degraded, s.phase.degraded)
  {
  }

  /** A boot attempt that fails before the consumer was started is made again, from the beginning. */
  lemma BootIsRetried(s: State, planned: bool)
    requires (s.phase.Booting? || s.phase.BeforeConsumer?) && !s.closing
    ensures var again := Step(Step(s, Throws(planned)), Proceed);
            && again.phase == Booting && !again.bootDone && !again.resumed && !again.subscribed
            && !again.flags.reconciliationHealthy && again.flags.failureConfirmed
  {
  }

  /** A start that fails once the consumer was started is over. */
  predicate Over(s: State) {
    (s.phase.CleaningUp? || s.phase.Failed?) && !s.flags.bootstrapReconciled
  }

  /** Every error of an awaited call ends the await: in a retry, in a cleanup, or for good. */
  lemma ErrorsEndTheAwait(s: State, planned: bool)
    requires !s.phase.Idle? && !s.phase.Running? && !s.phase.CleaningUp? && !s.phase.Failed?
    ensures var booting := s.phase.Booting? || s.phase.BeforeConsumer?;
            var next := AfterThrow(s, planned).phase;
            && (next.Retrying? <==> booting && !s.closing)
            && (next.Failed? <==>
                  || s.phase.Retrying?
                  || (booting && s.closing)
                  || (s.phase.Unlocking? && s.closing && planned))
            && (next.Retrying? || next.CleaningUp? || next.Failed?)
  {
    match s.phase
    case Booting =>
    case BeforeConsumer(_) =>
    case _ =>
  }

  /** Once stop has begun, a start goes no further than the await it is at. */
  predicate Halts(s: State, t: State) {
    t.phase == s.phase || t.phase.CleaningUp? || t.phase.Failed?
  }

  lemma AwaitsHalt(s: State)
    requires s.closing && !s.phase.Unlocking?
    ensures Halts(s, AfterAwait(s))
    ensures s.phase.CleaningUp? ==>
              var t := AfterAwait(s);
              t.phase.Failed? && t.flags.failureConfirmed && !t.flags.reconciliationHealthy
  {
  }

  lemma ThrowsHalt(s: State, planned: bool)
    requires s.closing
    ensures Halts(s, AfterThrow(s, planned))
  {
  }

  lemma BackgroundHalts(s: State, a: Action)
    ensures Background(s, a).phase == s.phase
  {
  }

  lemma StopHaltsTheStart(s: State, a: Action)
    requires s.closing && !s.phase.Unlocking?
    ensures Halts(s, Step(s, a))
  {
    match a
    case Proceed => AwaitsHalt(s);
    case Throws(planned) => ThrowsHalt(s, planned);
    case _ => BackgroundHalts(s, a);
  }

  /** A consumer that is not ready, a queue that stays paused, or an error on the way end the start. */
  lemma LateFailuresEndIt(s: State, a: Action)
    requires || (s.phase.Starting? && a == ConsumerStarted(false))
             || (s.phase.Checking? && a == PauseRead(true))
             || ((s.phase.Starting? || s.phase.Resuming? || s.phase.Checking? || s.phase.AfterResume?) && a.Throws?)
    ensures Over(Step(s, a)) && !Step(s, a).installed
  {
  }

  lemma OverStaysOver(s: State, a: Action)
    requires Over(s)
    ensures Over(Step(s, a))
  {
  }

  /** And the worker is never ready after that. */
  lemma {:induction false} OverIsFinal(s: State, actions: seq<Action>, since: Option<int>, now: int, interval: nat)
    requires Over(s)
    ensures !ReadyAt(since, Run(s, actions).flags, now, interval)
    decreases |actions|
  {
    if actions != [] {
      OverStaysOver(s, actions[0]);
      OverIsFinal(Step(s, actions[0]), actions[1..], since, now, interval);
    }
  }
}

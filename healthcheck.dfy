// The health-check orchestrator: the worker loop that sets up both sides of
// the probe strategy, runs probe cycles, keeps the failure count of the last
// cycle, decides whether to abort, and stops once shutdown is observed.

module Healthcheck {
  import opened Wrappers
  import opened HealthcheckNccl

  /** Sides set up before the first cycle (the setup loop bound). */
  const SetupSides: nat := 2

  /** Probes launched per cycle: the launch loop bound, although room for two
      futures is reserved. */
  const ProbesPerCycle: nat := 1

  /** The failure count at which the host is declared problematic. */
  const AbortThreshold: int := 2

  /** The value `numFailures` holds before the first cycle completes. */
  const NoCycleYet: int := -1

  /** How a launched probe's future is found at the deadline: still running,
      or finished with the all-reduce result the strategy then checks. */
  datatype ProbeInput = TimedOut | Completed(collective: Collective)

  datatype StopReason = SetupRaised | ShutdownSeen | ProcessAborted

  datatype Phase = Idle | Running | Stopped(reason: StopReason)

  /** The observable steps of the worker, in order. */
  datatype Event = SetUp(side: int) | Launched(side: int) | CycleEnd(failures: int)

  /** A second `get` on the worker's future: undefined in standard C++, and
      a `future_error` in libstdc++, which is what this outcome stands for. */
  datatype ShutdownError = FutureAlreadyRetrieved

  // ---------------------------------------------------------------------------
  // Specification of one cycle and of the whole run
  // ---------------------------------------------------------------------------

  /** A probe counts as a failure when it timed out (its result is never
      fetched) or when fetching it raises, i.e. the strategy rejected it. */
  predicate ProbeFails(p: ProbeInput, localWorldSize: int)
  {
    p.TimedOut? || p.collective != Reduced(2 * localWorldSize)
  }

  function CountFailures(ps: seq<ProbeInput>, localWorldSize: int): (n: nat)
    ensures n <= |ps|
    ensures n == 0 <==> forall i :: 0 <= i < |ps| ==> !ProbeFails(ps[i], localWorldSize)
  {
    if ps == [] then 0
    else CountFailures(ps[..|ps| - 1], localWorldSize) +
         (if ProbeFails(ps[|ps| - 1], localWorldSize) then 1 else 0)
  }

  /** The futures of cycle `c`, in launch order. */
  function CycleProbes(probeOutcome: (nat, nat) -> ProbeInput, c: nat): (ps: seq<ProbeInput>)
    ensures |ps| == ProbesPerCycle
  {
    seq(ProbesPerCycle, (k: int) requires 0 <= k => probeOutcome(c, k))
  }

  /** Future `i` of a launch list probes side `i`. */
  lemma {:induction false} LaunchLogAt(k: nat, i: nat)
    requires i < k
    ensures LaunchLog(k)[i] == Launched(i)
  {
    if i < k - 1 {
      LaunchLogAt(k - 1, i);
    }
  }

  /** The futures a cycle awaits are the ones it launched, in launch order,
      and each of them probes side 0, since only one is launched. */
  lemma CycleProbesLaunched(probeOutcome: (nat, nat) -> ProbeInput, c: nat)
    ensures |CycleProbes(probeOutcome, c)| == |LaunchLog(ProbesPerCycle)|
    ensures forall k :: 0 <= k < |CycleProbes(probeOutcome, c)| ==>
              CycleProbes(probeOutcome, c)[k] == probeOutcome(c, k) && LaunchLog(ProbesPerCycle)[k] == Launched(k)
    ensures forall e :: e in LaunchLog(ProbesPerCycle) ==> e == Launched(0)
  {
    forall k | 0 <= k < ProbesPerCycle
      ensures LaunchLog(ProbesPerCycle)[k] == Launched(k)
    {
      LaunchLogAt(ProbesPerCycle, k);
    }
  }

  function CycleFailures(probeOutcome: (nat, nat) -> ProbeInput, localWorldSize: int, c: nat): int
  {
    CountFailures(CycleProbes(probeOutcome, c), localWorldSize)
  }

  /** The launches of one cycle: futures `0 .. k-1`, future `i` probing side `i`. */
  function LaunchLog(k: nat): (log: seq<Event>)
    ensures |log| == k
  {
    if k == 0 then [] else LaunchLog(k - 1) + [Launched(k - 1)]
  }

  function CycleLog(probeOutcome: (nat, nat) -> ProbeInput, localWorldSize: int, c: nat): seq<Event>
  {
    LaunchLog(ProbesPerCycle) + [CycleEnd(CycleFailures(probeOutcome, localWorldSize, c))]
  }

  /** The events of the first `n` cycles. */
  function CyclesLog(probeOutcome: (nat, nat) -> ProbeInput, localWorldSize: int, n: nat): (log: seq<Event>)
    ensures |log| == n * (ProbesPerCycle + 1)
  {
    if n == 0 then []
    else CyclesLog(probeOutcome, localWorldSize, n - 1) + CycleLog(probeOutcome, localWorldSize, n - 1)
  }

  function SetupLog(k: nat): (log: seq<Event>)
    ensures |log| == k
  {
    if k == 0 then [] else SetupLog(k - 1) + [SetUp(k - 1)]
  }

  /** How many `setup` calls are made: they stop at the first that raises. */
  function SetupCalls(rendezvousOk: int -> bool): (k: nat)
    ensures 1 <= k <= SetupSides
    ensures forall side :: 0 <= side < k - 1 ==> rendezvousOk(side)
    ensures k < SetupSides ==> !rendezvousOk(k - 1)
  {
    if !rendezvousOk(0) then 1 else 2
  }

  predicate SetupSucceeded(rendezvousOk: int -> bool)
  {
    rendezvousOk(0) && rendezvousOk(1)
  }

  /** The cycles run: up to and including the first whose interval wait sees
      the shutdown flag, and no more than the environment's horizon. */
  function CyclesRun(shutdownByWake: nat -> bool, from: nat, horizon: nat): (n: nat)
    requires from <= horizon
    ensures from <= n <= horizon
    decreases horizon - from
  {
    if from == horizon then horizon
    else if shutdownByWake(from) then from + 1
    else CyclesRun(shutdownByWake, from + 1, horizon)
  }

  predicate ShutdownWithin(shutdownByWake: nat -> bool, from: nat, horizon: nat)
  {
    exists c :: from <= c < horizon && shutdownByWake(c)
  }

  // ---------------------------------------------------------------------------
  // Properties of the specification
  // ---------------------------------------------------------------------------

  /** A cycle has at most one failure, so `numFailures` stays in `-1 .. 1`. */
  lemma CycleFailuresBound(probeOutcome: (nat, nat) -> ProbeInput, localWorldSize: int, c: nat)
    ensures 0 <= CycleFailures(probeOutcome, localWorldSize, c) <= ProbesPerCycle
  {
  }

  /** The abort gate can never open: one probe per cycle cannot produce the
      two failures it waits for, whatever the probes report. */
  lemma AbortUnreachable(probeOutcome: (nat, nat) -> ProbeInput, localWorldSize: int, c: nat)
    ensures CycleFailures(probeOutcome, localWorldSize, c) != AbortThreshold
  {
    CycleFailuresBound(probeOutcome, localWorldSize, c);
  }

  /** The gate itself is not dead code: a cycle launching both sides and seeing
      both fail would reach it. */
  lemma AbortNeedsBothSides(localWorldSize: int)
    ensures CountFailures([TimedOut, TimedOut], localWorldSize) == AbortThreshold
    ensures forall p: ProbeInput :: CountFailures([p], localWorldSize) < AbortThreshold
  {
    assert [TimedOut, TimedOut][..1] == [TimedOut];
    assert [TimedOut][..0] == [];
    forall p: ProbeInput ensures CountFailures([p], localWorldSize) < AbortThreshold {
      assert [p][..0] == [];
    }
  }

  /** A failed probe is counted iff it timed out or the strategy rejected it. */
  lemma {:induction false} CountFailuresAppend(ps: seq<ProbeInput>, p: ProbeInput, localWorldSize: int)
    ensures CountFailures(ps + [p], localWorldSize) ==
            CountFailures(ps, localWorldSize) + (if ProbeFails(p, localWorldSize) then 1 else 0)
  {
    assert (ps + [p])[..|ps + [p]| - 1] == ps;
  }

  /** Every probe of every cycle is for side 0, and each cycle ends with its
      own failure count. */
  lemma {:induction false} CyclesLogShape(probeOutcome: (nat, nat) -> ProbeInput, localWorldSize: int, n: nat)
    ensures forall i :: 0 <= i < |CyclesLog(probeOutcome, localWorldSize, n)| ==>
              var e := CyclesLog(probeOutcome, localWorldSize, n)[i];
              if i % 2 == 0 then e == Launched(0)
              else e == CycleEnd(CycleFailures(probeOutcome, localWorldSize, i / 2))
  {
    if n > 0 {
      CyclesLogShape(probeOutcome, localWorldSize, n - 1);
      var prev := CyclesLog(probeOutcome, localWorldSize, n - 1);
      var log := CyclesLog(probeOutcome, localWorldSize, n);
      assert |prev| == 2 * (n - 1);
      assert log == prev + [Launched(0), CycleEnd(CycleFailures(probeOutcome, localWorldSize, n - 1))];
      forall i | 0 <= i < |log|
        ensures if i % 2 == 0 then log[i] == Launched(0)
                else log[i] == CycleEnd(CycleFailures(probeOutcome, localWorldSize, i / 2))
      {
        if i < |prev| {
          assert log[i] == prev[i];
        }
      }
    }
  }

  /** Widening the watched range by one wait. */
  lemma ShutdownWithinStep(shutdownByWake: nat -> bool, c: nat)
    ensures ShutdownWithin(shutdownByWake, 0, c + 1) <==>
            ShutdownWithin(shutdownByWake, 0, c) || shutdownByWake(c)
  {
    if ShutdownWithin(shutdownByWake, 0, c + 1) && !shutdownByWake(c) {
      var w :| 0 <= w < c + 1 && shutdownByWake(w);
      assert w < c;
    }
  }

  lemma ShutdownWithinWiden(shutdownByWake: nat -> bool, c: nat, horizon: nat)
    requires c <= horizon && ShutdownWithin(shutdownByWake, 0, c)
    ensures ShutdownWithin(shutdownByWake, 0, horizon)
  {
    var w :| 0 <= w < c && shutdownByWake(w);
    assert 0 <= w < horizon;
  }

  /** A run stops early exactly when some wait in range sees the flag. */
  lemma {:induction false} CyclesRunStops(shutdownByWake: nat -> bool, from: nat, horizon: nat)
    requires from <= horizon
    ensures CyclesRun(shutdownByWake, from, horizon) < horizon ==> ShutdownWithin(shutdownByWake, from, horizon)
    ensures var n := CyclesRun(shutdownByWake, from, horizon);
            forall c :: from <= c < n - 1 ==> !shutdownByWake(c)
    ensures ShutdownWithin(shutdownByWake, from, horizon) ==>
              shutdownByWake(CyclesRun(shutdownByWake, from, horizon) - 1)
    decreases horizon - from
  {
    if from < horizon && !shutdownByWake(from) {
      CyclesRunStops(shutdownByWake, from + 1, horizon);
      if ShutdownWithin(shutdownByWake, from, horizon) {
        var c :| from <= c < horizon && shutdownByWake(c);
        assert from + 1 <= c;
      }
    }
  }

  // ---------------------------------------------------------------------------
  // The orchestrator object
  // ---------------------------------------------------------------------------

  class Healthcheck {
    const abortOnError: bool
    const strategy: HealthcheckNCCL
    var numFailures: int
    var shutdownFlag: bool
    var workerJoined: bool
    var aborted: bool
    var phase: Phase
    var cycles: nat
    var log: seq<Event>

    predicate Valid()
      reads this, strategy
    {
      strategy.Valid() && (numFailures == NoCycleYet || 0 <= numFailures <= ProbesPerCycle)
    }

    /** Construction: no cycle has run, so the sentinel is visible. The worker
        is started separately, by `RunLoop`. */
    constructor (abortOnError: bool, strategy: HealthcheckNCCL)
      requires strategy.Valid()
      ensures Valid()
      ensures this.abortOnError == abortOnError && this.strategy == strategy
      ensures numFailures == NoCycleYet && !shutdownFlag && !workerJoined && !aborted
      ensures phase == Idle && cycles == 0 && log == []
    {
      this.abortOnError := abortOnError;
      this.strategy := strategy;
      numFailures := NoCycleYet;
      shutdownFlag := false;
      workerJoined := false;
      aborted := false;
      phase := Idle;
      cycles := 0;
      log := [];
    }

    /** The worker's setup phase: `setup(0)` then `setup(1)`; the first that
        raises ends the worker. */
    method RunSetup(streamHandle: int -> nat, rendezvousOk: int -> bool) returns (ok: bool)
      requires Valid() && log == []
      requires strategy.streams == [] && strategy.processGroups == []
      modifies this`log, strategy
      ensures Valid()
      ensures ok == SetupSucceeded(rendezvousOk)
      ensures log == SetupLog(SetupCalls(rendezvousOk))
      ensures |strategy.streams| == SetupCalls(rendezvousOk)
      ensures ok ==> strategy.processGroups == [strategy.GroupFor(0), strategy.GroupFor(1)]
    {
      var side := 0;
      while side < SetupSides
        invariant 0 <= side <= SetupSides
        invariant forall s :: 0 <= s < side ==> rendezvousOk(s)
        invariant |strategy.streams| == side && |strategy.processGroups| == side
        invariant forall s :: 0 <= s < side ==> strategy.processGroups[s] == strategy.GroupFor(s)
        invariant log == SetupLog(side)
        invariant Valid()
      {
        var o := strategy.Setup(side, streamHandle(side), rendezvousOk(side));
        log := log + [SetUp(side)];
        if o.Fail? {
          assert log == SetupLog(side + 1);
          return false;
        }
        side := side + 1;
        assert log == SetupLog(side);
      }
      assert strategy.processGroups == [strategy.GroupFor(0), strategy.GroupFor(1)];
      return true;
    }

    /** One cycle: launch the probes, wait for each future, and store the
        number that timed out or raised. */
    method RunCycle(probeOutcome: (nat, nat) -> ProbeInput, c: nat) returns (failures: int)
      requires Valid() && |strategy.streams| == SetupSides && |strategy.processGroups| == SetupSides
      modifies this`log, this`numFailures
      ensures Valid()
      ensures failures == CycleFailures(probeOutcome, strategy.localWorldSize, c)
      ensures numFailures == failures
      ensures log == old(log) + CycleLog(probeOutcome, strategy.localWorldSize, c)
    {
      LaunchProbes();
      ghost var launched := log;
      failures := AwaitProbes(CycleProbes(probeOutcome, c));
      CycleFailuresBound(probeOutcome, strategy.localWorldSize, c);
      numFailures := failures;
      log := log + [CycleEnd(failures)];
      assert log == launched + [CycleEnd(failures)];
    }

    /** Launch the futures of a cycle, future `i` probing side `i`. */
    method LaunchProbes()
      modifies this`log
      ensures log == old(log) + LaunchLog(ProbesPerCycle)
    {
      var i := 0;
      while i < ProbesPerCycle
        invariant 0 <= i <= ProbesPerCycle
        invariant log == old(log) + LaunchLog(i)
      {
        log := log + [Launched(i)];
        i := i + 1;
      }
    }

    /** Wait for each future in turn: a future past its deadline counts as a
        failure, as does a finished probe that raised. */
    method AwaitProbes(probes: seq<ProbeInput>) returns (failures: nat)
      requires |strategy.streams| == SetupSides && |strategy.processGroups| == SetupSides
      requires |probes| <= SetupSides
      ensures failures == CountFailures(probes, strategy.localWorldSize)
    {
      var lws := strategy.localWorldSize;
      failures := 0;
      var k := 0;
      while k < |probes|
        invariant 0 <= k <= |probes|
        invariant failures == CountFailures(probes[..k], lws)
      {
        var failed := AwaitProbe(k, probes[k]);
        if failed {
          failures := failures + 1;
        }
        assert probes[..k + 1][..k] == probes[..k];
        k := k + 1;
      }
      assert probes[..k] == probes;
    }

    /** One future: its probe fails when the deadline passed or when the
        side's healthcheck raised. */
    method AwaitProbe(k: nat, p: ProbeInput) returns (failed: bool)
      requires |strategy.streams| == SetupSides && |strategy.processGroups| == SetupSides
      requires k < SetupSides
      ensures failed == ProbeFails(p, strategy.localWorldSize)
    {
      if p.TimedOut? {
        return true;
      }
      var o := strategy.RunHealthcheck(k, p.collective);
      return o.Fail?;
    }

    /** One turn of the worker's loop: a cycle, the gate that would abort the
        process, and the interval wait, which observes the shutdown flag. */
    method WatchCycle(probeOutcome: (nat, nat) -> ProbeInput, shutdownByWake: nat -> bool, c: nat)
      requires Valid() && |strategy.streams| == SetupSides && |strategy.processGroups| == SetupSides
      requires cycles == c && !aborted
      requires log == SetupLog(SetupSides) + CyclesLog(probeOutcome, strategy.localWorldSize, c)
      modifies this`log, this`numFailures, this`cycles, this`aborted, this`shutdownFlag
      ensures Valid() && cycles == c + 1 && !aborted
      ensures log == SetupLog(SetupSides) + CyclesLog(probeOutcome, strategy.localWorldSize, c + 1)
      ensures numFailures == CycleFailures(probeOutcome, strategy.localWorldSize, c)
      ensures shutdownFlag == shutdownByWake(c)
    {
      var lws := strategy.localWorldSize;
      ghost var before := log;
      var failures := RunCycle(probeOutcome, c);
      assert log == before + CycleLog(probeOutcome, lws, c);
      assert CyclesLog(probeOutcome, lws, c + 1) == CyclesLog(probeOutcome, lws, c) + CycleLog(probeOutcome, lws, c);
      cycles := cycles + 1;
      // std::abort() ends the process at the gate; it never opens.
      AbortUnreachable(probeOutcome, lws, c);
      aborted := failures == AbortThreshold && abortOnError;
      // The interval wait: a shutdown requested meanwhile is observed here.
      shutdownFlag := shutdownByWake(c);
    }

    /** The worker: setup, then cycles until an interval wait sees the
        shutdown flag. The environment supplies whether each side's rendezvous
        succeeds, each future's state at the deadline, whether shutdown was
        requested by the end of each interval wait, and a horizon after which
        it stops watching. */
    method RunLoop(streamHandle: int -> nat, rendezvousOk: int -> bool,
                   probeOutcome: (nat, nat) -> ProbeInput, shutdownByWake: nat -> bool,
                   horizon: nat)
      requires Valid() && phase == Idle && log == [] && cycles == 0 && !shutdownFlag && !aborted
      requires numFailures == NoCycleYet
      requires strategy.streams == [] && strategy.processGroups == []
      modifies this, strategy
      ensures Valid() && !aborted
      ensures |strategy.streams| == SetupCalls(rendezvousOk)
      ensures SetupSucceeded(rendezvousOk) ==>
                strategy.processGroups == [strategy.GroupFor(0), strategy.GroupFor(1)]
      ensures !SetupSucceeded(rendezvousOk) ==>
                cycles == 0 && numFailures == NoCycleYet && phase == Stopped(SetupRaised) &&
                log == SetupLog(SetupCalls(rendezvousOk))
      ensures SetupSucceeded(rendezvousOk) ==>
                cycles == CyclesRun(shutdownByWake, 0, horizon) &&
                log == SetupLog(SetupSides) + CyclesLog(probeOutcome, strategy.localWorldSize, cycles) &&
                phase == (if ShutdownWithin(shutdownByWake, 0, horizon) then Stopped(ShutdownSeen) else Running) &&
                numFailures == (if cycles == 0 then NoCycleYet
                                else CycleFailures(probeOutcome, strategy.localWorldSize, cycles - 1))
      ensures shutdownFlag <==> SetupSucceeded(rendezvousOk) && ShutdownWithin(shutdownByWake, 0, horizon)
      ensures workerJoined == old(workerJoined)
    {
      var ok := RunSetup(streamHandle, rendezvousOk);
      if !ok {
        phase := Stopped(SetupRaised);
        return;
      }
      phase := Running;
      Watch(probeOutcome, shutdownByWake, horizon);
    }

    /** The cycles of a worker whose setup succeeded, until an interval wait
        sees the shutdown flag or the horizon is reached. */
    method Watch(probeOutcome: (nat, nat) -> ProbeInput, shutdownByWake: nat -> bool, horizon: nat)
      requires Valid() && phase == Running && cycles == 0 && !shutdownFlag && !aborted
      requires numFailures == NoCycleYet && log == SetupLog(SetupSides)
      requires |strategy.streams| == SetupSides
      requires strategy.processGroups == [strategy.GroupFor(0), strategy.GroupFor(1)]
      modifies this`log, this`numFailures, this`cycles, this`aborted, this`shutdownFlag, this`phase
      ensures Valid() && !aborted
      ensures cycles == CyclesRun(shutdownByWake, 0, horizon)
      ensures log == SetupLog(SetupSides) + CyclesLog(probeOutcome, strategy.localWorldSize, cycles)
      ensures phase == (if ShutdownWithin(shutdownByWake, 0, horizon) then Stopped(ShutdownSeen) else Running)
      ensures numFailures == (if cycles == 0 then NoCycleYet
                              else CycleFailures(probeOutcome, strategy.localWorldSize, cycles - 1))
      ensures shutdownFlag <==> ShutdownWithin(shutdownByWake, 0, horizon)
    {
      var lws := strategy.localWorldSize;
      var c: nat := 0;
      while c < horizon && !shutdownFlag && !aborted
        invariant 0 <= c <= horizon
        invariant shutdownFlag <==> ShutdownWithin(shutdownByWake, 0, c)
        invariant !shutdownFlag ==> CyclesRun(shutdownByWake, 0, horizon) == CyclesRun(shutdownByWake, c, horizon)
        invariant shutdownFlag ==> CyclesRun(shutdownByWake, 0, horizon) == c
        invariant cycles == c && phase == Running && !aborted
        invariant log == SetupLog(SetupSides) + CyclesLog(probeOutcome, lws, c)
        invariant numFailures == if c == 0 then NoCycleYet else CycleFailures(probeOutcome, lws, c - 1)
        invariant Valid() && |strategy.streams| == SetupSides
        invariant strategy.processGroups == [strategy.GroupFor(0), strategy.GroupFor(1)]
        decreases horizon - c
      {
        WatchCycle(probeOutcome, shutdownByWake, c);
        ShutdownWithinStep(shutdownByWake, c);
        c := c + 1;
      }
      if shutdownFlag {
        ShutdownWithinWiden(shutdownByWake, c, horizon);
      }
      phase := if aborted then Stopped(ProcessAborted)
               else if shutdownFlag then Stopped(ShutdownSeen) else Running;
    }

    /** `shutdown()`: raise the flag, then join the worker. The worker's own
        exceptions are caught inside it, so the join only fails when the
        future was already retrieved by an earlier call. */
    method Shutdown() returns (o: Outcome<ShutdownError>)
      modifies this
      ensures shutdownFlag && workerJoined
      ensures o == if old(workerJoined) then Fail(FutureAlreadyRetrieved) else Pass
      ensures numFailures == old(numFailures) && phase == old(phase) && aborted == old(aborted)
      ensures cycles == old(cycles) && log == old(log)
    {
      shutdownFlag := true;
      if workerJoined {
        return Fail(FutureAlreadyRetrieved);
      }
      workerJoined := true;
      return Pass;
    }
  }
}

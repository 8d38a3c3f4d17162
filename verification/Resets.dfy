/** How long after power-on a reset is still accepted, over whole runs. */
module Resets {
  import opened Bytes
  import opened CtapStatus
  import opened Authenticator
  import opened AuthenticatorRuns

  /** The clock reading the window counts from after n events: the last power-on or the last successful reset. */
  function WindowStart(run: Run, n: nat): u32
    requires n <= |run.events| == |run.results|
  {
    if n == 0 then 0
    else match run.events[n - 1]
      case PowerCycle(now) => now
      case Request(_, command) => if ResetAt(run, n - 1) then command.restart else WindowStart(run, n - 1)
  }

  /** The clock reading at the last power-on. */
  function PowerOnTime(run: Run, n: nat): u32
    requires n <= |run.events|
  {
    if n == 0 then 0
    else match run.events[n - 1]
      case PowerCycle(now) => now
      case Request(_, _) => PowerOnTime(run, n - 1)
  }

  /** A reset succeeded since the last power-on. */
  predicate ResetSincePowerOn(run: Run, n: nat)
    requires n <= |run.events| == |run.results|
  {
    n > 0 && run.events[n - 1].Request? && (ResetAt(run, n - 1) || ResetSincePowerOn(run, n - 1))
  }

  lemma {:induction false} InitTimeIs(run: Run, n: nat)
    requires IsRun(run) && n <= |run.events|
    ensures StateAt(run, n).initTime == WindowStart(run, n)
  {
    hide Inv, StepAt, Dispatch, BeginRequest;
    if n > 0 {
      InitTimeIs(run, n - 1);
      RunStep(run, n - 1);
      var s, e := StateAt(run, n - 1), run.events[n - 1];
      if e.Request? {
        RequestChecks(s, e.now);
        RequestOk(s, e.now, e.command);
      }
    }
  }

  lemma ResetStepWhen(s: State, now: u32, c: Command)
    requires Inv(s) && c.Reset?
    ensures Step(s, Request(now, c)).response.status == Success
       <==> c.answer == Allow && Elapsed(now, s.initTime) <= RESET_WINDOW
  {
    RequestChecks(s, now);
  }

  /**
   * Over every run, a reset succeeds if and only if the user agrees and at most ten seconds on the 32-bit clock have
   * passed since the last power-on or successful reset.
   */
  lemma ResetWhen(run: Run, k: nat)
    requires IsRun(run) && k < |run.events| && run.events[k].Request? && run.events[k].command.Reset?
    ensures run.results[k].response.status == Success
       <==> run.events[k].command.answer == Allow
            && Elapsed(run.events[k].now, WindowStart(run, k)) <= RESET_WINDOW
  {
    hide Inv, StepAt, Step, PowerOn;
    InitTimeIs(run, k);
    RunStep(run, k);
    ResetStepWhen(StateAt(run, k), run.events[k].now, run.events[k].command);
  }

  lemma {:induction false} WindowOpensAtPowerOn(run: Run, n: nat)
    requires n <= |run.events| == |run.results| && !ResetSincePowerOn(run, n)
    ensures WindowStart(run, n) == PowerOnTime(run, n)
  {
    if n > 0 && run.events[n - 1].Request? {
      WindowOpensAtPowerOn(run, n - 1);
    }
  }

  /** For the first successful reset after a power-on the ten seconds count from the power-on, as section 6.6 has it. */
  lemma FirstResetWhen(run: Run, k: nat)
    requires IsRun(run) && k < |run.events| && run.events[k].Request? && run.events[k].command.Reset?
    requires !ResetSincePowerOn(run, k)
    ensures run.results[k].response.status == Success
       <==> run.events[k].command.answer == Allow
            && Elapsed(run.events[k].now, PowerOnTime(run, k)) <= RESET_WINDOW
  {
    hide StepAt, Elapsed;
    ResetWhen(run, k);
    WindowOpensAtPowerOn(run, k);
  }

  // ---- one reset opens the window for the next ----

  /** Resets that the user agrees to, one every nine seconds. */
  function EveryNineSeconds(n: nat): (events: seq<Event>)
    ensures |events| == n
  {
    seq(n, k requires 0 <= k < n => Request(Clock(9_000 * (k + 1)), Reset(Allow, Clock(9_000 * (k + 1)))))
  }

  lemma NineSeconds(k: nat)
    ensures Elapsed(Clock(9_000 * (k + 1)), Clock(9_000 * k)) == 9_000
  {
    ElapsedReal(9_000 * k, 9_000 * (k + 1));
    ModOf(9_000, 0, 9_000);
  }

  lemma {:induction false} AllSucceed(run: Run, n: nat, k: nat)
    requires IsRun(run) && run.events == EveryNineSeconds(n) && k <= n
    ensures forall j :: 0 <= j < k ==> ResetAt(run, j)
    ensures WindowStart(run, k) == Clock(9_000 * k)
  {
    hide StepAt, Elapsed;
    if k == 0 {
      ModOf(0, 0, 0);
    } else {
      AllSucceed(run, n, k - 1);
      ResetWhen(run, k - 1);
      NineSeconds(k - 1);
    }
  }

  /** Any number of resets succeeds after one power-on; already the second comes after 18 seconds. */
  lemma ResetsForever(capacity: nat, n: nat) returns (run: Run)
    ensures IsRun(run) && run.capacity == capacity && run.events == EveryNineSeconds(n)
    ensures forall k :: 0 <= k < n ==> ResetAt(run, k)
    ensures n >= 2 ==> Elapsed(run.events[1].now, PowerOnTime(run, 1)) == 18_000 > RESET_WINDOW
  {
    hide StepAt, Inv;
    run := RunExists(capacity, EveryNineSeconds(n));
    AllSucceed(run, n, n);
  }
}

/** What a pinUvAuthToken can be used for over a whole run. */
module TokenRuns {
  import opened Bytes
  import opened Credential
  import opened UvToken
  import opened Authenticator
  import opened AuthenticatorInv
  import opened AuthenticatorRuns

  /** Event k put a new token in use. */
  predicate IssueAt(run: Run, k: nat)
    requires k < |run.events| == |run.results|
  {
    run.events[k].Request? && Issued(run.events[k].command, run.results[k])
  }

  // ---- one RP, and one use together with user presence ----

  /** The token, if there is one, belongs to that RP; a spent one no longer stands for user verification. */
  predicate Tied(t: Token, hash: Hash, spent: bool) {
    t.inUse ==> t.rpIdSet && t.rpIdHash == hash && (spent ==> !t.userVerified)
  }

  lemma TiedKept(s: State, e: Event, hash: Hash, spent: bool)
    requires Inv(s) && Fine(e) && Tied(s.token, hash, spent)
    requires !(e.Request? && Issued(e.command, Step(s, e)))
    ensures var r := Step(s, e);
      && Tied(r.state.token, hash, spent)
      && (HasUv(r.response) ==> UvRpId(r.response) == hash)
      && (VerifiesUv(r.response) ==> !spent)
  {
    match e {
      case PowerCycle(now) =>
      case Request(now, command) =>
        hide Inv, Dispatch, BeginRequest;
        RequestOk(s, now, command);
        RequestChecks(s, now);
    }
  }

  /** A response with the uv bit leaves the token tied to its RP, and spent if it also has the up bit. */
  lemma UvTies(s: State, e: Event)
    requires Inv(s) && Fine(e) && HasUv(Step(s, e).response)
    ensures var r := Step(s, e);
      Tied(r.state.token, UvRpId(r.response), VerifiesUvWithUp(r.response))
  {
    match e {
      case PowerCycle(now) =>
      case Request(now, command) =>
        hide Inv, Dispatch, BeginRequest;
        RequestOk(s, now, command);
        RequestChecks(s, now);
    }
  }

  lemma {:induction false} TiedSince(run: Run, i: nat, j: nat)
    requires IsRun(run) && i < j <= |run.events| && HasUv(run.results[i].response)
    requires forall k :: i < k < j ==> !IssueAt(run, k)
    ensures var r := run.results[i].response; Tied(StateAt(run, j).token, UvRpId(r), VerifiesUvWithUp(r))
  {
    hide Inv, Step, StepAt, HasUv, VerifiesUv, VerifiesUvWithUp, Tied, Issued, PowerOn;
    var r := run.results[i].response;
    RunStep(run, j - 1);
    if j == i + 1 {
      UvTies(StateAt(run, i), run.events[i]);
    } else {
      TiedSince(run, i, j - 1);
      assert !IssueAt(run, j - 1);
      TiedKept(StateAt(run, j - 1), run.events[j - 1], UvRpId(r), VerifiesUvWithUp(r));
    }
  }

  /**
   * Between two issued tokens, every response with the uv bit, getNextAssertion's included, is for the same RP, and
   * a makeCredential or getAssertion that also has the up bit is the last that verifies a pinUvAuthParam.
   */
  lemma UvBetweenIssues(run: Run, i: nat, j: nat)
    requires IsRun(run) && i < j < |run.events|
    requires HasUv(run.results[i].response) && HasUv(run.results[j].response)
    requires forall k :: i < k <= j ==> !IssueAt(run, k)
    ensures UvRpId(run.results[i].response) == UvRpId(run.results[j].response)
    ensures VerifiesUvWithUp(run.results[i].response) ==> !VerifiesUv(run.results[j].response)
  {
    hide Inv, Step, StepAt, HasUv, VerifiesUv, VerifiesUvWithUp, Tied, Issued, PowerOn;
    var r := run.results[i].response;
    TiedSince(run, i, j);
    assert !IssueAt(run, j);
    RunStep(run, j);
    TiedKept(StateAt(run, j), run.events[j], UvRpId(r), VerifiesUvWithUp(r));
  }

  // ---- every uv bit goes back to a correct PIN ----

  /** When the token in force after n events was issued; None before the first one and after a power cycle. */
  function IssueTime(run: Run, n: nat): Option<u32>
    requires n <= |run.events| == |run.results|
  {
    if n == 0 || run.events[n - 1].PowerCycle? then None
    else if IssueAt(run, n - 1) then Some(run.events[n - 1].now)
    else IssueTime(run, n - 1)
  }

  /** Only issuing changes the start of a token in use, and a power cycle leaves no token in use. */
  lemma StartStep(s: State, e: Event)
    requires Inv(s) && Fine(e)
    ensures var r := Step(s, e);
      r.state.token.inUse ==>
        && e.Request?
        && (if Issued(e.command, r) then r.state.token.start == e.now
            else s.token.inUse && r.state.token.start == s.token.start)
  {
    match e {
      case PowerCycle(now) =>
      case Request(now, command) =>
        hide Inv, Dispatch, BeginRequest;
        RequestOk(s, now, command);
        RequestChecks(s, now);
    }
  }

  lemma {:induction false} TokenTime(run: Run, n: nat)
    requires IsRun(run) && n <= |run.events|
    ensures var t := StateAt(run, n).token; t.inUse ==> IssueTime(run, n) == Some(t.start)
  {
    hide Inv, Step, StepAt, Issued;
    if n > 0 {
      TokenTime(run, n - 1);
      RunStep(run, n - 1);
      StartStep(StateAt(run, n - 1), run.events[n - 1]);
    }
  }

  /**
   * Every response with the uv bit comes within ten minutes (on the 32-bit clock) of a token issued in the same
   * power cycle, and later than 30 seconds after that only if the token was used before.
   */
  lemma UvIsRecent(run: Run, k: nat)
    requires IsRun(run) && k < |run.events| && HasUv(run.results[k].response)
    ensures run.events[k].Request? && IssueTime(run, k).Some?
    ensures var now, issued := run.events[k].now, IssueTime(run, k).value;
      && Elapsed(now, issued) <= MAX_USAGE_TIME_PERIOD
      && (Elapsed(now, issued) > INITIAL_USAGE_TIME_LIMIT ==> StateAt(run, k).token.lastUse > issued)
  {
    hide Inv, StepAt, Dispatch;
    var before, e := StateAt(run, k), run.events[k];
    TokenTime(run, k);
    RunStep(run, k);
    if e.Request? {
      RequestOk(before, e.now, e.command);
      RequestChecks(before, e.now);
    }
  }

  /**
   * A token is issued exactly by a token command that presents the stored PIN, whatever its response; it starts out
   * never used.
   */
  lemma IssueNeedsPin(s: State, now: u32, command: Command)
    requires Inv(s) && WellFormed(command)
    ensures Issued(command, Step(s, Request(now, command)))
       <==> PresentsRightPin(s.pin, command) && IssuesToken(command.pin)
    ensures Issued(command, Step(s, Request(now, command))) ==>
      var t := Step(s, Request(now, command)).state.token; t.inUse && t.start == now && t.lastUse == 0
  {
    hide Inv, Dispatch, BeginRequest, Checkable;
    RequestOk(s, now, command);
    RequestChecks(s, now);
    PinEffects(BeginRequest(s, now), command);
  }

  /** A request that stops or replaces the token leaves no stateful command of the old one behind. */
  lemma StoppedTokenDiscards(s: State, now: u32, command: Command)
    requires Inv(s) && WellFormed(command)
    ensures var s1, r := BeginRequest(s, now), Step(s, Request(now, command));
      && (s.token.inUse && !s1.token.inUse ==> s1.stateful.NoStateful?)
      && (s1.token.inUse && (!r.state.token.inUse || Issued(command, r)) ==> r.state.stateful.NoStateful?)
  {
    hide Inv, Dispatch, BeginRequest;
    RequestOk(s, now, command);
    RequestChecks(s, now);
  }

  /** In every reachable state a token not in use is entirely zero. */
  lemma UnusedTokenIsZero(run: Run, n: nat)
    requires IsRun(run) && n <= |run.events| && !StateAt(run, n).token.inUse
    ensures StateAt(run, n).token == UNUSED
  {
    hide StoreOk, PinOk, StepAt, Step, PowerOn;
    RunInv(run, n);
  }
}

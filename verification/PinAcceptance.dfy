/** When each subcommand of authenticatorClientPIN succeeds, what it answers, and which token it issues. */
module PinAcceptance {
  import opened Bytes
  import opened ItemLog
  import opened Credential
  import opened CredentialStore
  import opened CtapStatus
  import opened UvToken
  import opened Authenticator
  import opened AuthenticatorInv
  import opened AuthenticatorRuns
  import Pin

  // ---- the new PIN ----

  predicate NewPinOk(n: Pin.NewPin, minimum: nat) {
    n.Padded? && n.digest.Some? && |Pin.Stripped(n.bytes)| <= 63 && Pin.CodePoints(Pin.Stripped(n.bytes)) >= minimum
  }

  lemma PolicyWhen(p: Pin.State, n: Pin.NewPin)
    ensures var status := Pin.Policy(p, n);
      && (status == Success <==> NewPinOk(n, p.record.minCodePoints))
      && (n.BadLength? ==> status == InvalidParameter)
      && (n.Undecryptable? ==> status == PinAuthInvalid)
      && (n.Padded? && (|Pin.Stripped(n.bytes)| > 63
                        || Pin.CodePoints(Pin.Stripped(n.bytes)) < p.record.minCodePoints as int) ==>
            status == PinPolicyViolation)
  {}

  /** setPIN: exactly when it succeeds, and what it stores. */
  lemma SetPinWhen(s: State, c: Command)
    requires Inv(s) && WellFormed(c) && c.ClientPin? && c.pin.SetPin?
    ensures var r := Dispatch(s, c);
      && (r.response.status == Success <==>
            && c.parse == Success && c.protocolSupported && c.pin.complete && !s.pin.record.isSet
            && c.pin.decapsulates && c.pin.verifies && NewPinOk(c.pin.newPin, 4))
      && (r.response.status == Success ==>
            && r.state.pin.record.isSet && r.state.pin.record.hash == c.pin.newPin.digest.value
            && r.state.pin.record.codePoints as int == Pin.CodePoints(Pin.Stripped(c.pin.newPin.bytes)))
      && (r.response.status != Success ==> r.state == s)
      && (c.parse == Success && c.protocolSupported ==>
            && (!c.pin.complete ==> r.response.status == MissingParameter)
            && (c.pin.complete && s.pin.record.isSet ==> r.response.status == PinAuthInvalid)
            && (c.pin.complete && !s.pin.record.isSet && !c.pin.decapsulates ==> r.response.status == InvalidParameter)
            && (c.pin.complete && !s.pin.record.isSet && c.pin.decapsulates && !c.pin.verifies ==>
                  r.response.status == PinAuthInvalid))
  {
    hide StoreOk, Consistent, StatefulOk, NewPinOk, Pin.SetNew;
    StoreHandle(s.pin);
    PolicyWhen(s.pin, c.pin.newPin);
    SetNewIs(s.pin, c.pin.newPin);
  }

  lemma SetNewIs(p: Pin.State, n: Pin.NewPin)
    requires Pin.HandleOk(p) && WellSized(n)
    ensures var (p', status, e) := Pin.SetNew(p, n);
      && status == Pin.Policy(p, n)
      && (status != Success ==> p' == p)
      && (status == Success ==>
            && p'.record.isSet && p'.record.hash == n.digest.value
            && p'.record.codePoints as int == Pin.CodePoints(Pin.Stripped(n.bytes)))
  {}

  // ---- commands that check the PIN ----

  /** What may be asked for with permissions: something, with an RP for mc and ga, and neither be nor lbw. */
  predicate PermissionsOk(p: Permissions, rpIdHash: Option<Hash>) {
    && (p.mc || p.ga || p.cm || p.be || p.lbw || p.others != 0)
    && ((p.mc || p.ga) ==> rpIdHash.Some?) && !p.be && !p.lbw
  }

  lemma PermissionsWhen(complete: bool, p: Permissions, rpIdHash: Option<Hash>)
    ensures var status := PermissionsStatus(complete, p, rpIdHash);
      && (status == Success <==> complete && PermissionsOk(p, rpIdHash))
      && (!complete ==> status == MissingParameter)
      && (complete && !PermissionsOk(p, rpIdHash) ==>
            status == if (p.be || p.lbw) && ((p.mc || p.ga) ==> rpIdHash.Some?) then UnauthorizedPermission
                      else InvalidParameter)
  {}

  /** The request itself is one that may go on to the PIN. */
  predicate AsksForPin(c: Command) {
    && c.ClientPin? && c.parse == Success && c.protocolSupported
    && match c.pin
       case ChangePin(complete, _, _, _, _) => complete
       case GetPinToken(complete, extraneous, _, _) => complete && !extraneous
       case GetTokenWithPermissions(complete, permissions, rpIdHash, _, _) =>
         complete && PermissionsOk(permissions, rpIdHash)
       case _ => false
  }

  /** What a wrong PIN is answered with, by the attempts that were left before it. */
  function WrongPinStatus(p: Pin.State): CtapStatus {
    if p.record.totalAttempts == 1 then PinBlocked else if p.bootAttempts == 1 then PinAuthBlocked else PinInvalid
  }

  lemma WrongPinIs(p: Pin.State, entry: Option<seq<byte>>)
    requires StoreOk(p) && PinOk(p) && Pin.CheckRemaining(p) == Success
    ensures Pin.HandleOk(p)
    ensures var status := Pin.CheckPinHash(p, entry).1;
      status == if !p.record.isSet then PinNotSet
                else if entry == Some(p.record.hash) then Success else WrongPinStatus(p)
    ensures WrongPinStatus(p) != Success
  {
    StoreHandle(p);
    hide StoreOk, Pin.HandleOk;
  }

  /** The status of every request that asks for the PIN, whatever it presents. */
  lemma PinAnswers(s: State, c: Command)
    requires Inv(s) && WellFormed(c) && AsksForPin(c)
    ensures var status, p := Dispatch(s, c).response.status, s.pin;
      if p.record.totalAttempts == 0 then status == PinBlocked
      else if p.bootAttempts == 0 then status == PinAuthBlocked
      else if !c.pin.decapsulates then status == InvalidParameter
      else if c.pin.ChangePin? && !c.pin.verifies then status == PinAuthInvalid
      else if !p.record.isSet then status == PinNotSet
      else if c.pin.entry != Some(p.record.hash) then status == WrongPinStatus(p)
      else if c.pin.ChangePin? then status == Pin.Policy(p, c.pin.newPin)
      else status == c.finish
  {
    hide StoreOk, Consistent, StatefulOk, Pin.CheckPinHash, Pin.SetNew, StopUsing, WrongPinStatus, Inv, PinOk;
    InvParts(s);
    StoreHandle(s.pin);
    if c.pin.GetTokenWithPermissions? {
      PermissionsWhen(c.pin.complete, c.pin.permissions, c.pin.rpIdHash);
    }
    if Pin.CheckRemaining(s.pin) == Success {
      WrongPinIs(s.pin, c.pin.entry);
      CheckPinKeeps(s.pin, c.pin.entry);
      if c.pin.ChangePin? {
        StoreHandle(Pin.CheckPinHash(s.pin, c.pin.entry).0);
        SetNewIs(Pin.CheckPinHash(s.pin, c.pin.entry).0, c.pin.newPin);
        SamePolicy(s.pin, c.pin.entry, c.pin.newPin);
      }
    }
  }

  /** The status of every other request but setPIN; none of them changes anything. */
  lemma PinRequestRefusals(s: State, c: Command)
    requires Inv(s) && WellFormed(c) && c.ClientPin? && !c.pin.SetPin? && !AsksForPin(c)
    ensures var r := Dispatch(s, c);
      var status := r.response.status;
      && r.state == s && r.effect == Pin.NONE
      && (c.parse != Success ==> status == c.parse)
      && (c.parse == Success && !c.protocolSupported ==> status == InvalidParameter)
      && (c.parse == Success && c.protocolSupported ==>
            match c.pin
            case ChangePin(_, _, _, _, _) => status == MissingParameter
            case GetPinToken(complete, _, _, _) => status == if complete then InvalidParameter else MissingParameter
            case GetTokenWithPermissions(complete, p, rpIdHash, _, _) =>
              status == if !complete then MissingParameter
                        else if (p.be || p.lbw) && ((p.mc || p.ga) ==> rpIdHash.Some?) then UnauthorizedPermission
                        else InvalidParameter
            case UnsupportedPinCommand => status == InvalidSubcommand
            case _ => status == c.finish)
  {
    hide StoreOk, Consistent, StatefulOk, PinOk, Inv, IssueToken;
    InvParts(s);
    if c.pin.GetTokenWithPermissions? {
      PermissionsWhen(c.pin.complete, c.pin.permissions, c.pin.rpIdHash);
    }
  }

  lemma SamePolicy(p: Pin.State, entry: Option<seq<byte>>, n: Pin.NewPin)
    requires Pin.HandleOk(p) && Pin.CheckRemaining(p) == Success
    ensures Pin.Policy(Pin.CheckPinHash(p, entry).0, n) == Pin.Policy(p, n)
  {
    hide Pin.HandleOk;
  }

  lemma RightPinAsks(p: Pin.State, c: Command)
    ensures ReachesPin(p, c)
       <==> AsksForPin(c) && Checkable(p) && c.pin.decapsulates && (c.pin.ChangePin? ==> c.pin.verifies)
  {
    if c.ClientPin? && c.pin.GetTokenWithPermissions? {
      PermissionsWhen(c.pin.complete, c.pin.permissions, c.pin.rpIdHash);
    }
  }

  // ---- the token that is issued ----

  /** The permissions of the token a command asks for; getPinToken stands for makeCredential and getAssertion. */
  function AskedPermissions(c: PinCommand): Permissions
    requires IssuesToken(c)
  {
    match c
    case GetTokenWithPermissions(_, permissions, _, _, _) => permissions
    case _ => Permissions(true, true, false, false, false, 0)
  }

  function AskedRp(c: PinCommand): Option<Hash>
    requires IssuesToken(c)
  {
    match c
    case GetTokenWithPermissions(_, _, rpIdHash, _, _) => rpIdHash
    case _ => None
  }

  /** A new token: verified, without user presence, never used, with what was asked for and the fixed time limits. */
  function NewToken(c: PinCommand, now: u32): Token
    requires IssuesToken(c)
  {
    Token(true, AskedRp(c).Some?, if AskedRp(c).Some? then AskedRp(c).value else Zeros(32), AskedPermissions(c),
          now, 0, 30_000, 30_000, 600_000, true, false)
  }

  /** The right PIN puts exactly this token in use, and anything else leaves the token as it was. */
  lemma TokenWhen(s: State, c: Command)
    requires Inv(s) && WellFormed(c) && c.ClientPin? && IssuesToken(c.pin)
    ensures var r := Dispatch(s, c);
      && (r.response.status == Success <==> PresentsRightPin(s.pin, c) && c.finish == Success)
      && (if PresentsRightPin(s.pin, c)
          then r.state.token == NewToken(c.pin, s.now)
               && r.state.stateful == (if s.token.inUse then NoStateful else s.stateful)
          else r.state.token == s.token && r.state.stateful == s.stateful)
  {
    hide StoreOk, StatefulOk, Pin.CheckPinHash, Inv, PinOk;
    InvParts(s);
    StoreHandle(s.pin);
    if c.pin.GetTokenWithPermissions? {
      PermissionsWhen(c.pin.complete, c.pin.permissions, c.pin.rpIdHash);
    }
    if Pin.CheckRemaining(s.pin) == Success {
      WrongPinIs(s.pin, c.pin.entry);
    }
  }

  /** changePIN: exactly when it succeeds; the token is retired only then. */
  lemma ChangePinWhen(s: State, c: Command)
    requires Inv(s) && WellFormed(c) && c.ClientPin? && c.pin.ChangePin?
    ensures var r := Dispatch(s, c);
      && (r.response.status == Success <==> PresentsRightPin(s.pin, c) && NewPinOk(c.pin.newPin, 4))
      && (r.response.status == Success ==>
            && r.state.pin.record.isSet && r.state.pin.record.hash == c.pin.newPin.digest.value
            && r.state.token == UNUSED)
      && (r.response.status != Success ==> r.state.token == s.token && r.state.stateful == s.stateful)
  {
    hide StoreOk, StatefulOk, Pin.CheckPinHash, Pin.SetNew, Inv, NewPinOk;
    InvParts(s);
    StoreHandle(s.pin);
    PolicyWhen(s.pin, c.pin.newPin);
    if Pin.CheckRemaining(s.pin) == Success {
      WrongPinIs(s.pin, c.pin.entry);
      CheckPinKeeps(s.pin, c.pin.entry);
      StoreHandle(Pin.CheckPinHash(s.pin, c.pin.entry).0);
      SetNewIs(Pin.CheckPinHash(s.pin, c.pin.entry).0, c.pin.newPin);
      SamePolicy(s.pin, c.pin.entry, c.pin.newPin);
    }
  }

  // ---- what the platform sees of the attempts over a run ----

  /** getPINRetries reports the persistent attempts, and whether a power cycle is needed. */
  lemma RetriesWhen(s: State, c: Command)
    requires Inv(s) && WellFormed(c) && c.ClientPin? && c.pin.GetRetries? && Dispatch(s, c).response.status == Success
    ensures Dispatch(s, c).response.payload == Retries(s.pin.record.totalAttempts, s.pin.bootAttempts == 0)
  {
    hide StoreOk;
  }

  /**
   * Over every run in which no record write was lost: getPINRetries reports 8 minus the wrong PINs presented since the
   * attempts were last restored, and asks for a power cycle exactly after three wrong PINs in this one.
   */
  lemma RetriesReported(run: Run, k: nat)
    requires IsRun(run) && k < |run.events| && NoLostWrite(run, k) && run.events[k].Request?
    requires run.events[k].command.ClientPin? && run.events[k].command.pin.GetRetries?
    requires run.results[k].response.status == Success
    ensures run.results[k].response.payload.Retries?
    ensures run.results[k].response.payload.left as int == 8 - WrongPins(run, k)
    ensures run.results[k].response.payload.powerCycleNeeded <==> WrongThisBoot(run, k) == 3
  {
    hide Inv, StepAt, Dispatch, BeginRequest, PowerOn, Fine, WellFormed, Synced;
    RunStep(run, k);
    FineRequest(run.events[k]);
    RequestChecks(StateAt(run, k), run.events[k].now);
    RetriesWhen(BeginRequest(StateAt(run, k), run.events[k].now), run.events[k].command);
    TotalAttempts(run, k);
    BootAttempts(run, k);
  }

  /**
   * Over every run in which no record write was lost before: the eighth wrong PIN is answered PIN_BLOCKED, any other
   * that is the third of its power cycle PIN_AUTH_BLOCKED, and any other PIN_INVALID.
   */
  lemma WrongPinAnswered(run: Run, k: nat)
    requires IsRun(run) && k < |run.events| && NoLostWrite(run, k) && WrongPinAt(run, k)
    ensures run.results[k].response.status
         == if WrongPins(run, k) == 7 then PinBlocked
            else if WrongThisBoot(run, k) == 2 then PinAuthBlocked else PinInvalid
  {
    hide Inv, StepAt, Dispatch, BeginRequest, PowerOn, Fine, WellFormed, Synced, AsksForPin, ReachesPin;
    RunStep(run, k);
    var s, e := StateAt(run, k), run.events[k];
    FineRequest(e);
    RequestChecks(s, e.now);
    RightPinAsks(s.pin, e.command);
    PinAnswers(BeginRequest(s, e.now), e.command);
    TotalAttempts(run, k);
    BootAttempts(run, k);
  }

  // ---- authenticatorReset ----

  /** A successful reset leaves no item, no PIN and full attempts. */
  lemma ResetMeans(s: State, answer: Answer, restart: u32)
    requires Inv(s) && OnReset(s, answer, restart).response.status == Success
    ensures var p := OnReset(s, answer, restart).state.pin;
      && p.log == [] && Credentials(p.log) == [] && Items(p.log, KEY_COUNTER) == []
      && !p.record.isSet && p.record.totalAttempts == 8 && p.bootAttempts == 3
  {
    hide StoreOk;
    assert Items([], KEY_PIN_INFO) == [] && Items([], KEY_CREDENTIAL) == [] && Items([], KEY_COUNTER) == [];
  }

  /** A reset that does not succeed changes nothing, and says whether it came too late or what the user did. */
  lemma ResetRefusals(s: State, answer: Answer, restart: u32)
    requires OnReset(s, answer, restart).response.status != Success
    ensures var r := OnReset(s, answer, restart);
      && r.state == s && r.effect == Pin.NONE
      && (Elapsed(s.now, s.initTime) > 10_000 ==> r.response.status == NotAllowed)
      && (Elapsed(s.now, s.initTime) <= 10_000 ==>
            && (answer == Cancel ==> r.response.status == KeepaliveCancel)
            && (answer == Timeout ==> r.response.status == UserActionTimeout)
            && (answer == Deny ==> r.response.status == OperationDenied))
  {}
}

/** The pinUvAuthToken state (section 6.5.2.1 of CTAP 2.1) and its usage timer. */
module UvToken {
  import opened Bytes
  import opened Credential

  const INITIAL_USAGE_TIME_LIMIT: nat := 30_000
  const MAX_USAGE_TIME_PERIOD: nat := 600_000

  datatype Permission = Mc | Ga | Cm | Be | Lbw

  /** The bits of a permission word; `others` are the bits that no modelled command looks at. */
  datatype Permissions = Permissions(mc: bool, ga: bool, cm: bool, be: bool, lbw: bool, others: u32)

  const NO_PERMISSIONS: Permissions := Permissions(false, false, false, false, false, 0)
  const MC_AND_GA: Permissions := Permissions(true, true, false, false, false, 0)

  predicate Includes(p: Permissions, permission: Permission) {
    match permission
    case Mc => p.mc
    case Ga => p.ga
    case Cm => p.cm
    case Be => p.be
    case Lbw => p.lbw
  }

  const ZERO_HASH: Hash := Zeros(32)

  datatype Token = Token(
    inUse: bool,
    rpIdSet: bool,
    rpIdHash: Hash,
    permissions: Permissions,
    start: u32,
    lastUse: u32,
    initialUsageTimeLimit: u32,
    userPresentTimeLimit: u32,
    maxUsageTimePeriod: u32,
    userVerified: bool,
    userPresent: bool)

  const UNUSED: Token := Token(false, false, ZERO_HASH, NO_PERMISSIONS, 0, 0, 0, 0, 0, false, false)

  /** lastUse is the one variable that beginUsingPinUvAuthToken leaves alone. */
  function BeginUsing(t: Token, userIsPresent: bool, permissions: Permissions, now: u32): Token {
    Token(true, false, ZERO_HASH, permissions, now, t.lastUse,
          INITIAL_USAGE_TIME_LIMIT, INITIAL_USAGE_TIME_LIMIT, MAX_USAGE_TIME_PERIOD, true, userIsPresent)
  }

  predicate Expired(t: Token, now: u32) {
    var elapsed := Elapsed(now, t.start);
    t.inUse && (elapsed > t.maxUsageTimePeriod || (!(t.lastUse > t.start) && elapsed > t.initialUsageTimeLimit))
  }

  /** The usage timer observer: the token is unused afterwards, or only its cached user presence may be gone. */
  function CheckUsageTimer(t: Token, now: u32): Token {
    if !t.inUse then t
    else if Expired(t, now) then UNUSED
    else if t.userPresent && Elapsed(now, t.start) > t.userPresentTimeLimit then t.(userPresent := false)
    else t
  }

  function UserPresentFlag(t: Token): bool { t.inUse && t.userPresent }
  function UserVerifiedFlag(t: Token): bool { t.inUse && t.userVerified }
  function HasPermission(t: Token, permission: Permission): bool { t.inUse && Includes(t.permissions, permission) }

  function BindRpId(t: Token, hash: Hash): Token { t.(rpIdHash := hash, rpIdSet := true) }

  /** clearUserPresentFlag, clearUserVerifiedFlag and clearPinUvAuthTokenPermissionsExceptLbw. */
  function ClearAfterUse(t: Token): Token {
    if !t.inUse then t
    else t.(userPresent := false, userVerified := false, permissions := NO_PERMISSIONS.(lbw := t.permissions.lbw))
  }

  /** In every reachable state: an unused token is entirely zero, a used one has the fixed time limits. */
  predicate Consistent(t: Token) {
    if t.inUse then
      && t.initialUsageTimeLimit == INITIAL_USAGE_TIME_LIMIT && t.userPresentTimeLimit == INITIAL_USAGE_TIME_LIMIT
      && t.maxUsageTimePeriod == MAX_USAGE_TIME_PERIOD
    else t == UNUSED
  }

  /** Right after a timer check the token is young enough, and one past the initial limit has been used. */
  predicate Fresh(t: Token, now: u32) {
    t.inUse ==>
      && Elapsed(now, t.start) <= MAX_USAGE_TIME_PERIOD
      && (Elapsed(now, t.start) > INITIAL_USAGE_TIME_LIMIT ==> t.lastUse > t.start)
  }

  lemma CheckedTokenFresh(t: Token, now: u32)
    requires Consistent(t)
    ensures Consistent(CheckUsageTimer(t, now)) && Fresh(CheckUsageTimer(t, now), now)
    ensures CheckUsageTimer(t, now).inUse <==> t.inUse && Fresh(t, now)
  {}

  // ---- the timer against real time ----

  /**
   * A token that passes the check is at most ten real minutes old exactly when less than one wrap of the
   * clock (about 49.7 days) has passed since it was issued.
   */
  lemma RealAge(t: Token, start: nat, now: nat)
    requires Consistent(t) && t.inUse && t.start == Clock(start) && start <= now
    requires CheckUsageTimer(t, Clock(now)).inUse
    ensures now - start <= MAX_USAGE_TIME_PERIOD <==> now - start < U32
  {
    ElapsedReal(start, now);
    if now - start < U32 {
      ModOf(now - start, 0, now - start);
    }
  }

  /** A token left alone for exactly one wrap of the clock looks brand new. */
  lemma OldTokenRevives(start: nat)
    ensures var t := BeginUsing(UNUSED, false, MC_AND_GA, Clock(start));
      CheckUsageTimer(t, Clock(start + U32)) == t
  {
    ElapsedReal(start, start + U32);
    ModOf(start + U32 - start, 1, 0);
  }

  /**
   * Within one wrap, a token issued at `start` and last used at `used` (start when never used) survives a check
   * at `now` exactly when it is within ten minutes, and within 30 seconds unless it was used later than it was
   * issued with no wrap of the clock in between.
   */
  lemma Survival(t: Token, start: nat, used: nat, now: nat)
    requires Consistent(t) && t.inUse && t.start == Clock(start)
    requires if used == start then t.lastUse <= t.start else t.lastUse == Clock(used)
    requires start <= used <= now < start + U32
    ensures CheckUsageTimer(t, Clock(now)).inUse
       <==> now - start <= MAX_USAGE_TIME_PERIOD
            && (now - start <= INITIAL_USAGE_TIME_LIMIT || (used > start && used / U32 == start / U32))
  {
    ElapsedReal(start, now);
    ModOf(now - start, 0, now - start);
    if used > start {
      assert start == start / U32 * U32 + Clock(start) && used == used / U32 * U32 + Clock(used);
      if used / U32 != start / U32 {
        assert used / U32 >= start / U32 + 1;
        assert Clock(used) < Clock(start);
      }
    }
  }
}

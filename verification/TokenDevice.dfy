/** The pinUvAuthToken state variables, updated in place. */
module TokenDevice {
  import opened Bytes
  import opened Credential
  import opened UvToken

  class TokenState {
    var inUse: bool
    var rpIdSet: bool
    var rpIdHash: Hash
    var permissions: Permissions
    var start: u32
    var lastUse: u32
    var initialUsageTimeLimit: u32
    var userPresentTimeLimit: u32
    var maxUsageTimePeriod: u32
    var userVerified: bool
    var userPresent: bool

    ghost function View(): Token
      reads this
    {
      Token(inUse, rpIdSet, rpIdHash, permissions, start, lastUse, initialUsageTimeLimit, userPresentTimeLimit,
            maxUsageTimePeriod, userVerified, userPresent)
    }

    constructor ()
      ensures View() == UNUSED
    {
      inUse, rpIdSet, rpIdHash, permissions := false, false, ZERO_HASH, NO_PERMISSIONS;
      start, lastUse, initialUsageTimeLimit, userPresentTimeLimit, maxUsageTimePeriod := 0, 0, 0, 0, 0;
      userVerified, userPresent := false, false;
    }

    method BeginUsing(userIsPresent: bool, permissions: Permissions, now: u32)
      modifies this
      ensures View() == UvToken.BeginUsing(old(View()), userIsPresent, permissions, now)
    {
      rpIdHash := ZERO_HASH;
      rpIdSet := false;
      this.permissions := permissions;
      userPresent := userIsPresent;
      userVerified := true;
      initialUsageTimeLimit := INITIAL_USAGE_TIME_LIMIT;
      userPresentTimeLimit := INITIAL_USAGE_TIME_LIMIT;
      maxUsageTimePeriod := MAX_USAGE_TIME_PERIOD;
      start := now;
      inUse := true;
    }

    method SetRpId(hash: Hash)
      modifies this
      ensures View() == BindRpId(old(View()), hash)
    {
      rpIdHash := hash;
      rpIdSet := true;
    }

    method ClearUserPresentFlag()
      modifies this
      ensures View() == if old(inUse) then old(View()).(userPresent := false) else old(View())
    {
      if inUse {
        userPresent := false;
      }
    }

    method ClearUserVerifiedFlag()
      modifies this
      ensures View() == if old(inUse) then old(View()).(userVerified := false) else old(View())
    {
      if inUse {
        userVerified := false;
      }
    }

    method ClearPermissionsExceptLbw()
      modifies this
      ensures View() == if !old(inUse) then old(View())
                        else old(View()).(permissions := NO_PERMISSIONS.(lbw := old(permissions.lbw)))
    {
      if inUse {
        permissions := NO_PERMISSIONS.(lbw := permissions.lbw);
      }
    }

    /** The three calls that follow a successful use together with user presence. */
    method ClearAfterUse()
      modifies this
      ensures View() == UvToken.ClearAfterUse(old(View()))
    {
      ClearUserPresentFlag();
      ClearUserVerifiedFlag();
      ClearPermissionsExceptLbw();
    }

    method GetUserPresentFlagValue() returns (value: bool)
      ensures value == UserPresentFlag(View())
    {
      value := if inUse then userPresent else false;
    }

    method GetUserVerifiedFlagValue() returns (value: bool)
      ensures value == UserVerifiedFlag(View())
    {
      value := if inUse then userVerified else false;
    }

    method HasPermissions(permission: Permission) returns (granted: bool)
      ensures granted == HasPermission(View(), permission)
    {
      granted := if inUse then Includes(permissions, permission) else false;
    }

    /** memset of the whole state to zero. */
    method Zero()
      modifies this
      ensures View() == UNUSED
    {
      inUse, rpIdSet, rpIdHash, permissions := false, false, ZERO_HASH, NO_PERMISSIONS;
      start, lastUse, initialUsageTimeLimit, userPresentTimeLimit, maxUsageTimePeriod := 0, 0, 0, 0, 0;
      userVerified, userPresent := false, false;
    }
  }
}

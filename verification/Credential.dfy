/** The packed credential record: layout, truncation rules, and how it is built and read back. */
module Credential {
  import opened Bytes

  const HASH_SIZE: nat := 32
  const FIXED_SIZE: nat := 172
  const RP_ID_MAX_SIZE: nat := 255
  const USER_FIELD_MAX_SIZE: nat := 64
  const VARIABLE_MAX_SIZE: nat := 447

  // bit values of the flags word; the two lowest bits hold the credProtect level
  const DISCOVERABLE: nat := 4
  const PRESENT_USER_NAME: nat := 8
  const PRESENT_USER_DISPLAY_NAME: nat := 16
  const TRUNCATED_RP_ID: nat := 32
  const TRUNCATED_USER_NAME: nat := 64
  const TRUNCATED_USER_DISPLAY_NAME: nat := 128

  const COLON: byte := 0x3a
  const ELLIPSIS: seq<byte> := [0xe2, 0x80, 0xa6]

  type Hash = s: seq<byte> | |s| == 32 witness seq(32, _ => 0)

  datatype User = User(id: Option<seq<byte>>, name: Option<seq<byte>>, displayName: Option<seq<byte>>)
  datatype RpId = RpId(id: seq<byte>, hash: Hash)

  /** The random material of a new credential. */
  datatype Secrets = Secrets(id: Hash, privateKey: Hash, randomWithUv: Hash, randomWithoutUv: Hash)

  datatype Source = Source(
    flags: u32,
    rpIdHash: Hash,
    secrets: Secrets,
    userIdOffset: u16,
    userNameOffset: u16,
    userDisplayNameOffset: u16,
    variableDataEndOffset: u16,
    variableData: seq<byte>)

  predicate HasFlag(flags: u32, flag: nat)
    requires flag > 0
  {
    flags / flag % 2 == 1
  }

  function CredProtect(s: Source): nat { s.flags % 4 }

  predicate IsDiscoverable(s: Source) { HasFlag(s.flags, DISCOVERABLE) }

  predicate Valid(s: Source) {
    && s.userIdOffset <= s.userNameOffset <= s.userDisplayNameOffset <= s.variableDataEndOffset
    && s.variableDataEndOffset == |s.variableData| <= VARIABLE_MAX_SIZE
    && s.userIdOffset <= RP_ID_MAX_SIZE
  }

  function GetRpId(s: Source): seq<byte>
    requires Valid(s)
  {
    s.variableData[..s.userIdOffset]
  }

  function GetUserId(s: Source): seq<byte>
    requires Valid(s)
  {
    s.variableData[s.userIdOffset..s.userNameOffset]
  }

  function GetUser(s: Source): User
    requires Valid(s)
  {
    User(Some(GetUserId(s)),
         if HasFlag(s.flags, PRESENT_USER_NAME)
           then Some(s.variableData[s.userNameOffset..s.userDisplayNameOffset]) else None,
         if HasFlag(s.flags, PRESENT_USER_DISPLAY_NAME)
           then Some(s.variableData[s.userDisplayNameOffset..s.variableDataEndOffset]) else None)
  }

  // ---- byte layout ----

  function FixedPart(s: Source): (bytes: seq<byte>)
    ensures |bytes| == FIXED_SIZE
  {
    Le32(s.flags) + s.secrets.id + s.rpIdHash + s.secrets.privateKey
    + s.secrets.randomWithUv + s.secrets.randomWithoutUv
    + Le16(s.userIdOffset) + Le16(s.userNameOffset)
    + Le16(s.userDisplayNameOffset) + Le16(s.variableDataEndOffset)
  }

  function Encode(s: Source): seq<byte> {
    FixedPart(s) + s.variableData
  }

  function Decode(bytes: seq<byte>): Source
    requires |bytes| >= FIXED_SIZE
  {
    Source(FromLe32(bytes[0..4]), bytes[36..68],
           Secrets(bytes[4..36], bytes[68..100], bytes[100..132], bytes[132..164]),
           FromLe16(bytes[164..166]), FromLe16(bytes[166..168]),
           FromLe16(bytes[168..170]), FromLe16(bytes[170..172]),
           bytes[FIXED_SIZE..])
  }

  lemma DecodeEncode(s: Source)
    ensures |Encode(s)| == FIXED_SIZE + |s.variableData|
    ensures Decode(Encode(s)) == s
  {
    var b := Encode(s);
    assert b[0..4] == Le32(s.flags);
    assert b[4..36] == s.secrets.id;
    assert b[36..68] == s.rpIdHash;
    assert b[68..100] == s.secrets.privateKey;
    assert b[100..132] == s.secrets.randomWithUv;
    assert b[132..164] == s.secrets.randomWithoutUv;
    assert b[164..166] == Le16(s.userIdOffset);
    assert b[166..168] == Le16(s.userNameOffset);
    assert b[168..170] == Le16(s.userDisplayNameOffset);
    assert b[170..172] == Le16(s.variableDataEndOffset);
    Le32RoundTrip(s.flags);
  }

  // ---- truncation ----

  function Clip(input: seq<byte>, limit: nat): seq<byte> {
    if |input| <= limit then input else input[..limit]
  }

  function ClipField(field: Option<seq<byte>>): seq<byte> {
    match field
    case None => []
    case Some(value) => Clip(value, USER_FIELD_MAX_SIZE)
  }

  predicate Oversized(field: Option<seq<byte>>) {
    field.Some? && |field.value| > USER_FIELD_MAX_SIZE
  }

  /** The protocol string: everything up to and including the first colon, or nothing. */
  function Protocol(rpId: seq<byte>): (protocol: seq<byte>)
    ensures protocol <= rpId
    ensures if COLON in rpId
            then protocol != [] && protocol[|protocol| - 1] == COLON && COLON !in protocol[..|protocol| - 1]
            else protocol == []
  {
    if COLON !in rpId then []
    else if rpId[0] == COLON then rpId[..1]
    else
      var rest := Protocol(rpId[1..]);
      assert COLON in rpId[1..];
      [rpId[0]] + rest
  }

  /** Section 6.8.7 of CTAP 2.1: protocol, ellipsis, and as much of the tail as fits. */
  function StoredRpId(rpId: seq<byte>, limit: nat): seq<byte> {
    if |rpId| <= limit then rpId
    else
      var kept := Clip(Protocol(rpId), limit);
      if limit - |kept| < |ELLIPSIS| then kept
      else kept + ELLIPSIS + rpId[|rpId| - (limit - |kept| - |ELLIPSIS|)..]
  }

  /**
   * Whatever is stored fits, is at least 32 bytes unless the id itself is shorter, and a truncated id
   * that has room for it still starts with its protocol and ends with the longest tail that fits.
   */
  lemma StoredRpIdShape(rpId: seq<byte>, limit: nat)
    requires limit >= 34
    ensures var stored := StoredRpId(rpId, limit);
      && Min(|rpId|, 32) <= |stored| <= limit
      && (|rpId| > limit ==> Clip(Protocol(rpId), limit) <= stored)
      && (|rpId| > limit && |Protocol(rpId)| + 3 <= limit ==>
            && |stored| == limit
            && stored[|Protocol(rpId)|..|Protocol(rpId)| + 3] == ELLIPSIS
            && stored[|Protocol(rpId)| + 3..] == rpId[|rpId| - (limit - |Protocol(rpId)| - 3)..])
  {
    hide Protocol;
    var protocol := Protocol(rpId);
    if |rpId| > limit && |protocol| + 3 <= limit {
      ThreeParts(protocol, ELLIPSIS, rpId[|rpId| - (limit - |protocol| - 3)..]);
    }
  }

  lemma ThreeParts(a: seq<byte>, b: seq<byte>, c: seq<byte>)
    ensures a <= a + b + c
    ensures (a + b + c)[|a|..|a| + |b|] == b && (a + b + c)[|a| + |b|..] == c
  {}

  /** memcpy to position `at` of the buffer. */
  method CopyTo(buffer: array<byte>, at: nat, data: seq<byte>)
    requires at + |data| <= buffer.Length
    modifies buffer
    ensures buffer[..at + |data|] == old(buffer[..at]) + data
  {
    forall k | 0 <= k < |data| {
      buffer[at + k] := data[k];
    }
    assert buffer[at..at + |data|] == data;
  }

  method MaybeTruncateString(input: seq<byte>, buffer: array<byte>, at: nat, limit: nat)
    returns (truncated: bool, storedSize: nat)
    requires at + limit <= buffer.Length
    modifies buffer
    ensures truncated <==> |input| > limit
    ensures storedSize == |Clip(input, limit)| <= limit
    ensures buffer[..at + storedSize] == old(buffer[..at]) + Clip(input, limit)
  {
    if |input| <= limit {
      CopyTo(buffer, at, input);
      return false, |input|;
    }
    CopyTo(buffer, at, input[..limit]);
    return true, limit;
  }

  lemma {:induction false} ProtocolIs(rpId: seq<byte>, n: nat)
    requires n < |rpId| && rpId[n] == COLON && COLON !in rpId[..n]
    ensures Protocol(rpId) == rpId[..n + 1]
  {
    if n > 0 {
      assert rpId[0] == rpId[..n][0];
      assert rpId[1..][..n - 1] == rpId[..n][1..];
      assert rpId[1..][n - 1] == COLON;
      ProtocolIs(rpId[1..], n - 1);
      assert [rpId[0]] + rpId[1..][..n] == rpId[..n + 1];
    }
  }

  /** memchr for the colon: the length of the protocol string. */
  method FindProtocol(rpId: seq<byte>) returns (length: nat)
    ensures length == |Protocol(rpId)|
  {
    var n := 0;
    while n < |rpId|
      invariant n <= |rpId| && COLON !in rpId[..n]
    {
      if rpId[n] == COLON {
        ProtocolIs(rpId, n);
        return n + 1;
      }
      n := n + 1;
    }
    assert rpId[..n] == rpId;
    return 0;
  }

  lemma TruncatedParts(rpId: seq<byte>, limit: nat)
    ensures var kept := Min(|Protocol(rpId)|, limit);
      StoredRpId(rpId, limit)
      == if |rpId| <= limit then rpId
         else if limit - kept < 3 then rpId[..kept]
         else rpId[..kept] + ELLIPSIS + rpId[|rpId| - (limit - kept - 3)..]
  {
    hide Protocol;
    assert Clip(Protocol(rpId), limit) == rpId[..Min(|Protocol(rpId)|, limit)];
  }

  method MaybeTruncateRpId(rpId: seq<byte>, buffer: array<byte>, limit: nat)
    returns (truncated: bool, storedSize: nat)
    requires 32 <= limit <= buffer.Length
    modifies buffer
    ensures truncated <==> |rpId| > limit
    ensures storedSize <= limit && buffer[..storedSize] == StoredRpId(rpId, limit)
  {
    hide Protocol, Clip, StoredRpId;
    TruncatedParts(rpId, limit);
    if |rpId| <= limit {
      CopyTo(buffer, 0, rpId);
      return false, |rpId|;
    }
    var used := 0;
    var protocolLength := FindProtocol(rpId);
    if protocolLength > 0 {
      var toCopy := if protocolLength <= limit then protocolLength else limit;
      CopyTo(buffer, 0, rpId[..toCopy]);
      used := toCopy;
    }
    assert buffer[..used] == rpId[..Min(protocolLength, limit)];
    if limit - used < 3 {
      return true, used;
    }
    CopyTo(buffer, used, ELLIPSIS);
    used := used + 3;
    CopyTo(buffer, used, rpId[|rpId| - (limit - used)..]);
    return true, limit;
  }

  // ---- building a record ----

  function Bit(on: bool, flag: nat): nat {
    if on then flag else 0
  }

  /** The flags a pair of user fields contributes. */
  function UserFlags(name: Option<seq<byte>>, displayName: Option<seq<byte>>): nat {
    Bit(name.Some?, PRESENT_USER_NAME) + Bit(displayName.Some?, PRESENT_USER_DISPLAY_NAME)
    + Bit(Oversized(name), TRUNCATED_USER_NAME) + Bit(Oversized(displayName), TRUNCATED_USER_DISPLAY_NAME)
  }

  function Pack(flags: u32, rpIdHash: Hash, secrets: Secrets, rpId: seq<byte>, userId: seq<byte>,
                name: seq<byte>, displayName: seq<byte>): Source
    requires |rpId| <= RP_ID_MAX_SIZE && |userId| <= USER_FIELD_MAX_SIZE
    requires |name| <= USER_FIELD_MAX_SIZE && |displayName| <= USER_FIELD_MAX_SIZE
  {
    Source(flags, rpIdHash, secrets,
           |rpId|, |rpId| + |userId|, |rpId| + |userId| + |name|, |rpId| + |userId| + |name| + |displayName|,
           rpId + userId + name + displayName)
  }

  lemma PackReadsBack(flags: u32, rpIdHash: Hash, secrets: Secrets, rpId: seq<byte>, userId: seq<byte>,
                      name: seq<byte>, displayName: seq<byte>)
    requires |rpId| <= RP_ID_MAX_SIZE && |userId| <= USER_FIELD_MAX_SIZE
    requires |name| <= USER_FIELD_MAX_SIZE && |displayName| <= USER_FIELD_MAX_SIZE
    ensures var s := Pack(flags, rpIdHash, secrets, rpId, userId, name, displayName);
      && Valid(s) && GetRpId(s) == rpId && GetUserId(s) == userId
      && s.variableData[s.userNameOffset..s.userDisplayNameOffset] == name
      && s.variableData[s.userDisplayNameOffset..s.variableDataEndOffset] == displayName
  {}

  predicate StorableUser(user: User) {
    user.id.Some? && |user.id.value| <= USER_FIELD_MAX_SIZE
  }

  /** The record authenticatorMakeCredential stores. */
  function MakeSource(secrets: Secrets, discoverable: bool, credProtect: nat, rpId: RpId, user: User): Source
    requires credProtect <= 3 && StorableUser(user)
  {
    StoredRpIdFits(rpId.id);
    Pack(credProtect + Bit(discoverable, DISCOVERABLE) + Bit(|rpId.id| > RP_ID_MAX_SIZE, TRUNCATED_RP_ID)
           + UserFlags(user.name, user.displayName),
         rpId.hash, secrets, StoredRpId(rpId.id, RP_ID_MAX_SIZE), user.id.value,
         ClipField(user.name), ClipField(user.displayName))
  }

  /** An absent field and a present empty one both remove the stored field. */
  function DropEmpty(field: Option<seq<byte>>): Option<seq<byte>> {
    if field == Some([]) then None else field
  }

  /** The bits an update copies: credProtect, discoverable and truncated RP ID. */
  function KeptFlags(flags: u32): u32 {
    flags % 8 + Bit(HasFlag(flags, TRUNCATED_RP_ID), TRUNCATED_RP_ID)
  }

  /** The record updateUserInformation stores in place of s. */
  function UpdateSource(s: Source, user: User): Source
    requires Valid(s) && StorableUser(user)
  {
    var name, displayName := DropEmpty(user.name), DropEmpty(user.displayName);
    Pack(KeptFlags(s.flags) + UserFlags(name, displayName),
         s.rpIdHash, s.secrets, GetRpId(s), user.id.value, ClipField(name), ClipField(displayName))
  }

  lemma StoredRpIdFits(rpId: seq<byte>)
    ensures |StoredRpId(rpId, RP_ID_MAX_SIZE)| <= RP_ID_MAX_SIZE
  {
    StoredRpIdShape(rpId, RP_ID_MAX_SIZE);
  }

  function ClipOption(field: Option<seq<byte>>): Option<seq<byte>> {
    if field.None? then None else Some(Clip(field.value, USER_FIELD_MAX_SIZE))
  }

  /** Flags composed of low bits, the truncated-RP bit and user bits decompose again. */
  lemma FlagsDecompose(flags: u32, low: nat, rp: bool, name: Option<seq<byte>>, displayName: Option<seq<byte>>)
    requires low < 8 && flags == low + Bit(rp, TRUNCATED_RP_ID) + UserFlags(name, displayName)
    ensures flags % 4 == low % 4 && HasFlag(flags, DISCOVERABLE) == HasFlag(low, DISCOVERABLE)
    ensures HasFlag(flags, TRUNCATED_RP_ID) == rp
    ensures HasFlag(flags, PRESENT_USER_NAME) == name.Some?
    ensures HasFlag(flags, PRESENT_USER_DISPLAY_NAME) == displayName.Some?
    ensures HasFlag(flags, TRUNCATED_USER_NAME) == Oversized(name)
    ensures HasFlag(flags, TRUNCATED_USER_DISPLAY_NAME) == Oversized(displayName)
  {
    BitsDecompose(flags, low, Bit(name.Some?, 1), Bit(displayName.Some?, 1), Bit(rp, 1),
                  Bit(Oversized(name), 1), Bit(Oversized(displayName), 1));
  }

  lemma BitsDecompose(flags: u32, low: nat, b3: nat, b4: nat, b5: nat, b6: nat, b7: nat)
    requires low < 8 && b3 < 2 && b4 < 2 && b5 < 2 && b6 < 2 && b7 < 2
    requires flags == low + 8 * b3 + 16 * b4 + 32 * b5 + 64 * b6 + 128 * b7
    ensures flags % 4 == low % 4 && flags / 4 % 2 == low / 4 % 2 && flags / 8 % 2 == b3 && flags / 16 % 2 == b4
    ensures flags / 32 % 2 == b5 && flags / 64 % 2 == b6 && flags / 128 % 2 == b7
  {
    var f6 := b6 + 2 * b7;
    var f5 := b5 + 2 * f6;
    var f4 := b4 + 2 * f5;
    var f3 := b3 + 2 * f4;
    assert flags == low + 8 * f3;
    LowPart(low, f3);
    RepeatedHalving(flags);
    Halve(b3, f4);
    Halve(b4, f5);
    Halve(b5, f6);
    Halve(b6, b7);
  }

  lemma LowPart(low: nat, rest: nat)
    requires low < 8
    ensures (low + 8 * rest) / 8 == rest
    ensures (low + 8 * rest) % 4 == low % 4 && (low + 8 * rest) / 4 % 2 == low / 4 % 2
  {
    assert (low + 8 * rest) / 4 == low / 4 + 2 * rest;
  }

  lemma Halve(b: nat, rest: nat)
    requires b < 2
    ensures (b + 2 * rest) / 2 == rest && (b + 2 * rest) % 2 == b
  {}

  lemma RepeatedHalving(n: nat)
    ensures n / 16 == n / 8 / 2 && n / 32 == n / 16 / 2 && n / 64 == n / 32 / 2 && n / 128 == n / 64 / 2
  {}

  /** What a stored credential says about the request that created it. */
  predicate Describes(s: Source, secrets: Secrets, discoverable: bool, credProtect: nat, rpId: RpId, user: User) {
    && Valid(s) && s.secrets == secrets && s.rpIdHash == rpId.hash
    && CredProtect(s) == credProtect && IsDiscoverable(s) == discoverable
    && GetRpId(s) == StoredRpId(rpId.id, RP_ID_MAX_SIZE)
    && HasFlag(s.flags, TRUNCATED_RP_ID) == (|rpId.id| > RP_ID_MAX_SIZE)
    && GetUser(s) == User(user.id, ClipOption(user.name), ClipOption(user.displayName))
    && HasFlag(s.flags, TRUNCATED_USER_NAME) == Oversized(user.name)
    && HasFlag(s.flags, TRUNCATED_USER_DISPLAY_NAME) == Oversized(user.displayName)
  }

  lemma MakeSourceDescribes(secrets: Secrets, discoverable: bool, credProtect: nat, rpId: RpId, user: User)
    requires credProtect <= 3 && StorableUser(user)
    ensures Describes(MakeSource(secrets, discoverable, credProtect, rpId, user),
                      secrets, discoverable, credProtect, rpId, user)
  {
    hide StoredRpId, UserFlags;
    var s := MakeSource(secrets, discoverable, credProtect, rpId, user);
    var stored := StoredRpId(rpId.id, RP_ID_MAX_SIZE);
    assert |stored| <= RP_ID_MAX_SIZE by { StoredRpIdFits(rpId.id); }
    FlagsDecompose(s.flags, credProtect + Bit(discoverable, DISCOVERABLE), |rpId.id| > RP_ID_MAX_SIZE,
                   user.name, user.displayName);
    PackReadsBack(s.flags, rpId.hash, secrets, stored, user.id.value, ClipField(user.name),
                  ClipField(user.displayName));
  }

  /** Reading a created credential back gives the exact user id, clipped names, and the truncated RP ID. */
  lemma CreatedReadsBack(secrets: Secrets, discoverable: bool, credProtect: nat, rpId: RpId, user: User)
    requires credProtect <= 3 && StorableUser(user)
    ensures var s := MakeSource(secrets, discoverable, credProtect, rpId, user);
      && FIXED_SIZE <= |Encode(s)| <= FIXED_SIZE + VARIABLE_MAX_SIZE
      && Describes(Decode(Encode(s)), secrets, discoverable, credProtect, rpId, user)
  {
    MakeSourceDescribes(secrets, discoverable, credProtect, rpId, user);
    DecodeEncode(MakeSource(secrets, discoverable, credProtect, rpId, user));
  }

  /** Updating replaces the two names only. */
  lemma UpdatedReadsBack(s: Source, user: User)
    requires Valid(s) && StorableUser(user) && user.id == Some(GetUserId(s))
    ensures var u := Decode(Encode(UpdateSource(s, user)));
      && Valid(u) && u.secrets == s.secrets && u.rpIdHash == s.rpIdHash
      && CredProtect(u) == CredProtect(s) && IsDiscoverable(u) == IsDiscoverable(s)
      && GetRpId(u) == GetRpId(s) && GetUserId(u) == GetUserId(s)
      && HasFlag(u.flags, TRUNCATED_RP_ID) == HasFlag(s.flags, TRUNCATED_RP_ID)
      && GetUser(u).name == ClipOption(DropEmpty(user.name))
      && GetUser(u).displayName == ClipOption(DropEmpty(user.displayName))
      && HasFlag(u.flags, TRUNCATED_USER_NAME) == Oversized(DropEmpty(user.name))
      && HasFlag(u.flags, TRUNCATED_USER_DISPLAY_NAME) == Oversized(DropEmpty(user.displayName))
  {
    var u := UpdateSource(s, user);
    DecodeEncode(u);
    var name, displayName := DropEmpty(user.name), DropEmpty(user.displayName);
    LowBits(s.flags);
    FlagsDecompose(u.flags, s.flags % 8, HasFlag(s.flags, TRUNCATED_RP_ID), name, displayName);
    PackReadsBack(u.flags, s.rpIdHash, s.secrets, GetRpId(s), user.id.value, ClipField(name), ClipField(displayName));
  }

  /** The stored name is absent exactly with the name, and otherwise its first 64 bytes, flagged when there are more. */
  predicate Abbreviates(stored: Option<seq<byte>>, flagged: bool, name: Option<seq<byte>>) {
    match name
    case None => stored.None? && !flagged
    case Some(bytes) =>
      && stored.Some? && stored.value <= bytes && |stored.value| == Min(|bytes|, 64) && flagged == (|bytes| > 64)
  }

  /** What becomes of the two names of a user, by creating and by updating; updating with an empty name removes it. */
  lemma NamesReadBack(s: Source, secrets: Secrets, discoverable: bool, credProtect: nat, rpId: RpId, user: User)
    requires credProtect <= 3 && StorableUser(user)
    requires Valid(s) && user.id == Some(GetUserId(s))
    ensures var c := MakeSource(secrets, discoverable, credProtect, rpId, user);
      && Valid(c) && Abbreviates(GetUser(c).name, HasFlag(c.flags, TRUNCATED_USER_NAME), user.name)
      && Abbreviates(GetUser(c).displayName, HasFlag(c.flags, TRUNCATED_USER_DISPLAY_NAME), user.displayName)
    ensures var u := Decode(Encode(UpdateSource(s, user)));
      var name, displayName := user.name, user.displayName;
      && Valid(u)
      && Abbreviates(GetUser(u).name, HasFlag(u.flags, TRUNCATED_USER_NAME), if name == Some([]) then None else name)
      && Abbreviates(GetUser(u).displayName, HasFlag(u.flags, TRUNCATED_USER_DISPLAY_NAME),
                     if displayName == Some([]) then None else displayName)
  {
    hide MakeSource, UpdateSource, GetUser, GetUserId, Encode, Decode, HasFlag;
    MakeSourceDescribes(secrets, discoverable, credProtect, rpId, user);
    UpdatedReadsBack(s, user);
  }

  lemma LowBits(flags: u32)
    ensures flags % 8 % 4 == flags % 4 && HasFlag(flags % 8, DISCOVERABLE) == HasFlag(flags, DISCOVERABLE)
  {}

  /** Appends the user fields to the variable data; absent fields leave no bytes and no flags. */
  method PackUser(buffer: array<byte>, flags: u32, start: nat, userId: seq<byte>,
                  name: Option<seq<byte>>, displayName: Option<seq<byte>>)
    returns (newFlags: u32, nameOffset: nat, displayNameOffset: nat, endOffset: nat)
    requires flags < 64 && start <= RP_ID_MAX_SIZE && |userId| <= USER_FIELD_MAX_SIZE
    requires buffer.Length == VARIABLE_MAX_SIZE
    modifies buffer
    ensures newFlags == flags + UserFlags(name, displayName)
    ensures nameOffset == start + |userId| && displayNameOffset == nameOffset + |ClipField(name)|
    ensures endOffset == displayNameOffset + |ClipField(displayName)| <= VARIABLE_MAX_SIZE
    ensures buffer[..endOffset] == old(buffer[..start]) + userId + ClipField(name) + ClipField(displayName)
  {
    newFlags := flags;
    var size := |userId|;
    var truncated;
    truncated, size := MaybeTruncateString(userId, buffer, start, USER_FIELD_MAX_SIZE);
    assert !truncated;
    nameOffset := start + size;
    if name.Some? {
      truncated, size := MaybeTruncateString(name.value, buffer, nameOffset, USER_FIELD_MAX_SIZE);
      if truncated {
        newFlags := newFlags + TRUNCATED_USER_NAME;
      }
      newFlags := newFlags + PRESENT_USER_NAME;
    } else {
      size := 0;
    }
    displayNameOffset := nameOffset + size;
    assert buffer[..displayNameOffset] == old(buffer[..start]) + userId + ClipField(name);
    if displayName.Some? {
      truncated, size := MaybeTruncateString(displayName.value, buffer, displayNameOffset, USER_FIELD_MAX_SIZE);
      if truncated {
        newFlags := newFlags + TRUNCATED_USER_DISPLAY_NAME;
      }
      newFlags := newFlags + PRESENT_USER_DISPLAY_NAME;
    } else {
      size := 0;
    }
    endOffset := displayNameOffset + size;
  }

  /** The record bytes for a new credential, assembled in a temporary buffer. */
  method BuildNew(secrets: Secrets, discoverable: bool, credProtect: nat, rpId: RpId, user: User)
    returns (data: seq<byte>)
    requires credProtect <= 3 && StorableUser(user)
    ensures data == Encode(MakeSource(secrets, discoverable, credProtect, rpId, user))
  {
    var buffer := new byte[VARIABLE_MAX_SIZE];
    var flags := credProtect;
    if discoverable {
      flags := flags + DISCOVERABLE;
    }
    var truncated, rpIdSize := MaybeTruncateRpId(rpId.id, buffer, RP_ID_MAX_SIZE);
    if truncated {
      flags := flags + TRUNCATED_RP_ID;
    }
    var nameOffset, displayNameOffset, endOffset;
    flags, nameOffset, displayNameOffset, endOffset :=
      PackUser(buffer, flags, rpIdSize, user.id.value, user.name, user.displayName);
    var source := Source(flags, rpId.hash, secrets, rpIdSize, nameOffset, displayNameOffset, endOffset,
                         buffer[..endOffset]);
    assert source == MakeSource(secrets, discoverable, credProtect, rpId, user);
    return Encode(source);
  }

  /** The record bytes that replace credential s. */
  method BuildUpdate(s: Source, user: User) returns (data: seq<byte>)
    requires Valid(s) && StorableUser(user)
    ensures data == Encode(UpdateSource(s, user))
  {
    var buffer := new byte[VARIABLE_MAX_SIZE];
    var rpIdSize := s.userIdOffset;
    CopyTo(buffer, 0, s.variableData[..rpIdSize]);
    var flags, nameOffset, displayNameOffset, endOffset :=
      PackUser(buffer, KeptFlags(s.flags), rpIdSize, user.id.value, DropEmpty(user.name), DropEmpty(user.displayName));
    var source := Source(flags, s.rpIdHash, s.secrets, rpIdSize, nameOffset, displayNameOffset, endOffset,
                         buffer[..endOffset]);
    assert source == UpdateSource(s, user);
    return Encode(source);
  }
}

/** Which RP a stored credential belongs to: told from the bytes of its record, and from the request that created it. */
module RpScope {
  import opened Bytes
  import opened ItemLog
  import opened Credential
  import opened CredentialStore

  /**
   * The record holds exactly this RP ID, or, when it only holds a truncated one (bit 5 of the first byte), the hash
   * of this RP ID.
   */
  predicate BytesBelong(data: seq<byte>, rpId: RpId)
    requires |data| >= 172
  {
    if data[0] / 0x20 % 2 == 1 then data[36..68] == rpId.hash
    else
      var size := data[164] as int + 0x100 * data[165] as int;
      172 + size <= |data| && data[172..172 + size] == rpId.id
  }

  lemma FlagByte(data: seq<byte>)
    requires |data| >= 4
    ensures FromLe32(data[0..4]) / 0x20 % 2 == data[0] / 0x20 % 2
  {
    var rest := data[1] as int + 0x100 * data[2] as int + 0x1_0000 * data[3] as int;
    assert FromLe32(data[0..4]) == data[0] as int + 0x100 * rest;
    assert (data[0] as int + 0x100 * rest) / 0x20 == data[0] as int / 0x20 + 8 * rest;
  }

  lemma MatchesFromBytes(data: seq<byte>, rpId: RpId)
    requires |data| >= FIXED_SIZE && Credential.Valid(Decode(data))
    ensures MatchesRp(Decode(data), rpId) <==> BytesBelong(data, rpId)
  {
    FlagByte(data);
    var size := data[164] as int + 0x100 * data[165] as int;
    assert Decode(data).variableData[..size] == data[172..172 + size];
  }

  /** A created record matches an RP exactly when the ids are equal, or, for an id too long to be stored, the hashes. */
  lemma MatchesRequest(s: Source, secrets: Secrets, rk: bool, level: nat, created: RpId, user: User, rpId: RpId)
    requires Describes(s, secrets, rk, level, created, user)
    ensures MatchesRp(s, rpId)
       <==> if |created.id| <= RP_ID_MAX_SIZE then rpId.id == created.id else rpId.hash == created.hash
  {}

  /** The record of a stored credential. */
  ghost function RecordBytes(log: Log, c: Cred): (data: seq<byte>)
    requires c in Credentials(log)
    ensures |data| >= FIXED_SIZE && Decode(data) == c.source
  {
    var items := Items(log, KEY_CREDENTIAL);
    CredsAreEntries(items, c);
    var k :| 0 <= k < |items| && items[k].handle == c.handle && |items[k].data| >= FIXED_SIZE
             && Decode(items[k].data) == c.source;
    ItemsAreHandles(log, 0, KEY_CREDENTIAL, k);
    log[IndexOf(log, c.handle)].data
  }

  /** The stored credential is one of that RP, by its record. */
  ghost predicate Belongs(log: Log, c: Cred, rpId: RpId)
    requires c in Credentials(log)
  {
    BytesBelong(RecordBytes(log, c), rpId)
  }

  lemma MatchesBelongs(log: Log, c: Cred, rpId: RpId)
    requires c in Credentials(log) && Credential.Valid(c.source)
    ensures MatchesRp(c.source, rpId) <==> Belongs(log, c, rpId)
  {
    hide MatchesRp;
    MatchesFromBytes(RecordBytes(log, c), rpId);
  }

  /** The credential a create overwrites belongs, by its record, to the RP of the request and is the same user's. */
  lemma {:induction false} OverwrittenIs(creds: seq<Cred>, rpId: RpId, userId: seq<byte>)
    requires AllValid(creds) && forall c :: c in creds ==> c.handle != 0
    ensures var h := HandleOfUser(creds, rpId, userId);
      if h == 0 then forall c :: c in creds ==> !(MatchesRp(c.source, rpId) && GetUserId(c.source) == userId)
      else exists c :: c in creds && c.handle == h && MatchesRp(c.source, rpId) && GetUserId(c.source) == userId
  {
    if creds != [] {
      hide MatchesRp, GetUserId;
      OverwrittenIs(creds[1..], rpId, userId);
      assert forall c :: c in creds ==> c == creds[0] || c in creds[1..];
    }
  }

  lemma OverwritesOwn(log: Log, rpId: RpId, user: User)
    requires AllValid(Credentials(log)) && StorableUser(user)
    ensures var h := Overwritten(log, true, rpId, user);
      if h == 0
      then forall c :: c in Credentials(log) ==> !(Belongs(log, c, rpId) && GetUserId(c.source) == user.id.value)
      else exists c :: c in Credentials(log) && c.handle == h && Belongs(log, c, rpId)
                       && GetUserId(c.source) == user.id.value
  {
    hide MatchesRp, Credentials, Belongs, GetUserId, HandleOfUser;
    forall c | c in Credentials(log)
      ensures (MatchesRp(c.source, rpId) <==> Belongs(log, c, rpId)) && c.handle != 0
    {
      MatchesBelongs(log, c, rpId);
      CredHandles(log, c);
      HandlePositive(log, c.handle);
    }
    OverwrittenIs(Credentials(log), rpId, user.id.value);
  }

  lemma HandlePositive(log: Log, handle: nat)
    requires IsHandle(log, handle)
    ensures handle != 0
  {}
}

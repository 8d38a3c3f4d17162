# LionKey in Dafny

LionKey is a CTAP 2.1 authenticator written in C. This project models its five hardest parts in Dafny
and proves what they promise, for every input and over every run:

* the log-structured item store and the credential index on top of it,
* the CTAPHID transport (sections 11.2.4 and 11.2.5 of CTAP 2.1),
* the PIN, pinUvAuthToken and stateful-command state machines (sections 6.1, 6.2, 6.3, 6.5 and 6.8 of CTAP 2.1),
* streaming SHA-256 (FIPS 180-4), HMAC (RFC 2104) and HKDF (RFC 5869),
* the codecs: APDUs and NFC response chaining (ISO/IEC 7816-4), DER signatures (RFC 3279, X.690) and the packed
  credential record.

`dafny verify dfyconfig.toml` checks everything.

## How it is built

Code that changes state in place is a class or a method with loops, proved against a specification function; what
the code promises is then proved about those functions, over single steps and over whole runs.

| file | content |
|---|---|
| `Bytes` | fixed-width integers, byte encodings, the wrapping clock difference |
| `ItemLog`, `MemoryStorage`, `StoreRuns` | abstract log; byte format and the store class (module `Storage`); runs of store operations |
| `Credential`, `CredentialStore`, `CredentialIndex` | packed record and truncation; queries and writes; what enumeration and writes mean |
| `Ctaphid`, `CtaphidRuns`, `CtaphidAnswers` | fragmenter and reassembler; invariant, round trip under interleaving, no mixing; what every packet of a run is answered |
| `Sha256`, `Sha256Constants`, `Hmac`, `Der`, `Apdu`, `NfcChain` | cryptographic constructions and codecs |
| `UvToken`, `Pin`, `Utf8`, `Authenticator` | specification steps of token, PIN state and every command; the PIN policy on text |
| `TokenDevice`, `PinDevice`, `CtapDevice` | the same state in place, each handler refining its step |
| `AuthenticatorInv` | every command keeps the invariant and moves counters, token and stateful state only as allowed |
| `AuthenticatorRuns`, `PinWrites`, `TokenRuns`, `SignCounts`, `Resets` | theorems over runs of requests and power cycles: PIN attempts and what a power cycle keeps of them, tokens, signature counters, the reset window |
| `Pointers`, `Enumerations`, `Inventory` | what remembered pointers read; the stateful commands over runs; taking stock of the whole store |
| `Disclosure`, `StalePointers`, `Changes` | what success means, credProtect over runs and where it ends, who may change credentials |
| `RpScope`, `Acceptance`, `AssertionAcceptance`, `ManagementAcceptance`, `PinAcceptance` | when exactly every command succeeds, told from the request, the records and the token, and what it answers when it does not |
| `Origins` | over whole runs: where tokens, uv bits, consent and stored credentials come from |

The main theorems, each over every run or every input:

* the byte store refines an abstract list of items (`StoreRuns.PerformRefines`), and its estimate is exact;
* an enumeration lists the stored discoverable credentials exactly once (`Inventory.StockComplete`);
* every stored credential, every uv bit and every assertion goes back to a request that was entitled to it
  (`Origins.CredentialGoesBack`, `UvGoesBack`, `AssertionGoesBack`, `ConsentNeeded`);
* every command succeeds exactly under a stated condition (the `Acceptance` files);
* PIN attempts count the wrong PINs (`AuthenticatorRuns.TotalAttempts`, `PinAcceptance.RetriesReported`);
* signature counters increase (`SignCounts.SignCountsIncrease`), credProtect is respected (`Disclosure.CredProtectRespected`);
* interleaved CTAPHID messages arrive whole, and every packet gets the answer its run calls for
  (`CtaphidRuns.RoundTrip`, `CtaphidAnswers.PacketAnswer`);
* streaming hash, HMAC and HKDF equal their one-shot definitions; every codec round-trips in both directions.

The authenticator's runs are sequences of power cycles and requests with arbitrary clock readings, from an erased
store of any capacity. What a command learns from outside (parsed parameters, cryptographic checks, the user's
answer, random numbers, failures to produce a response) is part of the request, so the theorems hold for every
behaviour of those parts. `CtapState.Request` ties the in-place device to one step of such a run.

Stateful commands remember pointers into the store, as the source does, and read them when a response is produced. A
pointer is the handle of a record; it reads that record whether it is live or buried. After a reset there may be
another record or none under it; what it reads in the latter case is arbitrary.

Where code and documentation disagree the model follows the code:

* `core/ctap.c:347-348` says the whole stateful state is zero exactly when no command is active. Error exits after a
  partial fill (for example `core/ctap_credential_management.c:114-128`) break that; the model keeps only the active
  member and proves the index invariant instead.
* `core/ctap_credentials.c:709-719` promises KEY_STORE_FULL for a full store. An overwrite that does not fit comes back
  from the store as a general error (`core/ctap_memory_storage.c:171-175`) and is answered with CTAP1_ERR_OTHER.
  `CredentialIndex.FullStoreStatus` says exactly when each of the two is returned, `FullStoreOverwrite` is a failing
  input, and `UpdateNeverFull` says that an update has no KEY_STORE_FULL at all.
* credProtect is meant to hold for every response. A reset erases the store but leaves a stateful command active
  (`core/ctap_reset.c:43-51`), whose pointers then read whatever is created in the same place:
  `StalePointers.ResetBetween` is a run in which getNextAssertion discloses a level 3 credential without user
  verification. `Disclosure.CredProtectRespected` holds when there was user verification or no such reset, and
  `NextRespectsWhen` gives the exact condition otherwise.
* A reset is meant to be accepted only within ten seconds of powering up (section 6.6 of CTAP 2.1, and the comments at
  `core/ctap_reset.c:13-17`). A reset initializes the device again (`core/ctap_reset.c:51`, `core/ctap.c:101`), which
  opens another ten seconds: `Resets.ResetWhen` gives the exact condition, `Resets.ResetsForever` runs that violate the
  meant one, and `Resets.FirstResetWhen` says that the first reset after a power-on obeys it.
* A response that is chained out over NFC is meant to arrive whole. A piece that does not fit the transmit buffer is
  skipped without being sent (`nfc/Src/ctap_nfc.c:155-160`): `NfcChain.LongResponseArrives` gives the exact condition,
  `NfcChain.LargeLeLoses` a failing command.
* The maximum usage period of a token (`core/ctap_pin_uv_auth_token.c:65-70`) is ten minutes on the 32-bit clock; in
  real time that holds exactly until the clock wraps once (`UvToken.RealAge`, with the counterexample
  `UvToken.OldTokenRevives`).
* PIN retries and the PIN itself are meant to survive power cycles; a record write that fails is logged and forgotten
  (`core/ctap_pin.c:52-55`), and then they do not. `PinWrites.WrongPinRemembered`, `SetPinSurvives` and
  `ChangePinSurvives` say exactly when they do, `FullStoreForgets` and `FullStoreKeepsOldPin` are counterexamples.

## Model

| member | source | states |
|---|---|---|
| `Storage.MemoryStorage.FindItem` | core/ctap_memory_storage.c:81-121 | Moves the cursor to the next live item that matches, in log order, and returns exactly the head of what the cursor had not returned yet; reports not-found, with the cursor unchanged, exactly when nothing is left. |
| `Storage.FindAll` | core/ctap_memory_storage.c:81-121 | Calling find repeatedly from handle 0 yields exactly the live items of the key, each once, in log order, then not-found; it ends because the cursor strictly advances. |
| `Storage.MemoryStorage.CreateItem` | core/ctap_memory_storage.c:123-162 | Appends one record and hands out its handle, or reports out-of-memory exactly when header plus padded payload do not fit, and then changes neither memory, store nor item. |
| `Storage.MemoryStorage.CreateOrUpdateItem` | core/ctap_memory_storage.c:164-185 | An update appends the new version before it buries the old one, so the old version survives when the new one does not fit; a failed call changes nothing. |
| `Storage.MemoryStorage.DeleteItem` | core/ctap_memory_storage.c:187-206 | Turns exactly the named record into a tombstone; every other record and the write index stay. |
| `Storage.MemoryStorage.IncrementCounter` | core/ctap_memory_storage.c:208-238 | Replaces the single counter item by its value plus the increment modulo 2^32 (0 when absent) and returns the new value; failure changes nothing. |
| `Storage.MemoryStorage.EstimateNumRemainingItems` | core/ctap_memory_storage.c:240-252 | Returns the estimate that EstimateExact below proves exact. |
| `Storage.MemoryStorage.Erase` | core/ctap_memory_storage.c:254-267 | Leaves an empty store and no byte of an earlier record anywhere in the memory, although it only zeroes the used part: what lies beyond the write index is zero in every state. |
| `Storage.HoldsParses` | core/ctap_memory_storage.c:5-47 | The bytes below the write index, read sequentially from any record boundary, are exactly the remaining records of the log. |
| `Storage.AppendHolds` | core/ctap_memory_storage.c:135-158 | Writing a record at the write index extends the parsed log by that record and disturbs no earlier one. |
| `Storage.TombstoneHolds` | core/ctap_memory_storage.c:196-204 | Writing 1 into one is_deleted word buries that record and changes no other. |
| `StoreRuns.UsedBytesParse` | core/ctap_memory_storage.c:31-47 | The used bytes parse as contiguous records, all starting 4-aligned, ending exactly at the write index. |
| `StoreRuns.PerformRefines` | core/ctap_memory_storage.c:123-238 | Each operation refines its meaning on the abstract list of live (handle, key, data) items; a failed one leaves the store as it was. |
| `StoreRuns.RunExtends` | core/ctap_memory_storage.c:123-206 | Between two erases a run only buries and appends: bytes of earlier records never change and tombstones stay. |
| `StoreRuns.HandlesNeverRepeat` | core/ctap_memory_storage.c:22-29 | Over any run, a handle issued later is larger than every handle issued since the last erase. |
| `StoreRuns.RunFits` | core/ctap_memory_storage.c:133-139 | Over any run the used part never outgrows the memory. |
| `StoreRuns.PerformGrowth` | core/ctap_memory_storage.c:133-158 | Only successful writes consume bytes, and exactly header plus padded payload. |
| `StoreRuns.CounterIsSum` | core/ctap_memory_storage.c:208-238 | Over any run that does not touch the counter otherwise there is at most one counter item, and it holds the sum of the successful increments modulo 2^32. |
| `StoreRuns.CounterBudget` | core/ctap_memory_storage.c:208-238 | Each successful increment costs 20 bytes, so at most memory size / 20 of them fit between erases. |
| `StoreRuns.EstimateExact` | core/ctap_memory_storage.c:240-252 | With estimate n, the next n creates of that size succeed and the one after them fails. |
| `StoreRuns.OtherKeyInvisible` | core/ctap_memory_storage.c:106 | Burying an item of one key cannot be seen under another key. |
| `Credential.DecodeEncode` | core/ctap_credentials_store.h:23-48 | The packed record layout loses nothing: reading back the stored bytes gives the same fields. |
| `Credential.StoredRpIdShape` | core/ctap_string.c:43-96 | A stored RP ID fits, keeps at least 32 bytes, and when truncated keeps its protocol, an ellipsis and the longest tail that fits (section 6.8.7 of CTAP 2.1). |
| `Credential.MaybeTruncateString` | core/ctap_string.c:13-41 | Copies the longest prefix that fits behind what is already in the buffer and reports truncation exactly when the input is longer. |
| `Credential.MaybeTruncateRpId` | core/ctap_string.c:43-96 | Writes exactly the RP ID form StoredRpIdShape describes. |
| `Credential.FindProtocol` | core/ctap_string.c:66-78 | Finds the length of the protocol prefix up to and including the first colon, 0 without a colon. |
| `Credential.FlagsDecompose` | core/ctap_credentials_store.h:8-21 | The flag word composed bit by bit reads back every field independently. |
| `Credential.CreatedReadsBack` | core/ctap_credential_store.c:160-303 | A created credential reads back the exact user id, the first 64 bytes of each present name, the RP ID or its truncation, all keys, credProtect and discoverability, with monotone offsets. |
| `Credential.UpdatedReadsBack` | core/ctap_credential_store.c:305-442 | An update keeps id, keys, RP ID, user id, credProtect and discoverability; the names become the clipped new ones, and an empty new name removes the stored one. |
| `Credential.NamesReadBack` | core/ctap_string.c:13-41 | By creating and by updating, a name is stored as its first 64 bytes and flagged when there were more; an absent one stays absent, and updating with an empty one removes it. |
| `Credential.BuildNew` | core/ctap_credential_store.c:194-283 | The bytes assembled in the temporary buffer are the record that CreatedReadsBack is about. |
| `Credential.BuildUpdate` | core/ctap_credential_store.c:336-424 | The same for an update and UpdatedReadsBack. |
| `CredentialStore.Next` | core/ctap_credential_store.c:15-28 | The scan every query uses: delivers the stored credentials one by one in log order, skipping items too short to be one. |
| `CredentialStore.CountStored` | core/ctap_credential_store.c:4-32 | Counts all, or all discoverable, live credentials. |
| `CredentialStore.LookupById` | core/ctap_credential_store.c:93-116 | Finds the first live credential with that id, or none when there is none. |
| `CredentialStore.FindByUser` | core/ctap_credential_store.c:120-158 | Finds the first live credential of that user at that RP, whether discoverable or not; OverwritesOwn below says what "of that RP" means. |
| `CredentialStore.FindDiscoverable` | core/ctap_credential_store.c:509-579 | Collects exactly the discoverable credentials of the RP that credProtect does not hide, in log order, or fails when there are more than fit; SatisfiesWhen below says from the records which those are. |
| `CredentialStore.EnumerateRpIds` | core/ctap_credential_store.c:597-650 | Collects exactly the RPs of discoverable credentials, or fails when there are more than fit. |
| `CredentialStore.IsRpIdInTheList` | core/ctap_credential_store.c:581-595 | Tells whether the hash is already listed. |
| `CredentialStore.CreateCredential` | core/ctap_credential_store.c:160-303 | Performs the write CreateMeaning describes, overwriting the same user's item only for a discoverable credential. |
| `CredentialStore.UpdateUserInformation` | core/ctap_credential_store.c:305-442 | Performs the write UpdateMeaning describes. |
| `CredentialStore.DeleteCredential` | core/ctap_credential_store.c:465-474 | Removes exactly that credential. |
| `CredentialIndex.RpFirst` | core/ctap_credential_store.c:597-650 | Every listed RP stands for its first discoverable credential in the log and points to that credential and its stored RP ID. |
| `CredentialIndex.RpsInFirstOccurrenceOrder` | core/ctap_credential_store.c:597-650 | The list follows the log: RPs appear in the order of their first discoverable credentials. |
| `CredentialIndex.RpsCover` | core/ctap_credential_store.c:597-650 | A hash is listed exactly when a live discoverable credential has it. |
| `CredentialIndex.RpsDistinct` | core/ctap_credential_store.c:581-650 | No RP is listed twice. |
| `CredentialIndex.SelectMultiplicity` | core/ctap_credential_store.c:509-579 | A query returns each credential that satisfies it exactly as often as it is stored, and no other. |
| `CredentialIndex.CredentialsAscend` | core/ctap_credential_store.c:4-32 | The handles of stored credentials strictly increase along the log, so nothing is stored twice under one handle. |
| `CredentialIndex.RpGroupsPartition` | core/ctap_credential_store.c:4-32 | Enumerating the credentials of every enumerated RP yields each live discoverable credential exactly once and nothing else, so the per-RP counts sum to the stored count. |
| `CredentialIndex.FullStoreStatus` | core/ctap_credential_store.c:285-303 | A create with a user and random numbers succeeds if and only if the record fits; otherwise the status is KEY_STORE_FULL if and only if it would overwrite nothing (not discoverable, or no credential of that user at that RP), and CTAP1_ERR_OTHER if and only if it would. |
| `CredentialIndex.FullStoreOverwrite` | core/ctap_credential_store.c:285-303 | The concrete failure: in a store that one credential fills, replacing that credential is answered with CTAP1_ERR_OTHER, storing another one with KEY_STORE_FULL. |
| `CredentialIndex.UpdateNeverFull` | core/ctap_credential_store.c:425-442 | An update never reports KEY_STORE_FULL: for the same user it succeeds if and only if the new record fits, and is CTAP1_ERR_OTHER if not. |
| `CredentialIndex.CreateMeaning` | core/ctap_credential_store.c:160-303 | A successful create leaves the other credentials and appends one that describes the request, in place of the overwritten one; a failed one leaves the store unchanged; items of other keys never change. |
| `CredentialIndex.UpdateMeaning` | core/ctap_credential_store.c:305-442 | A successful update replaces exactly that credential; a failed one changes nothing; items of other keys never change. |
| `CredentialIndex.DeleteMeaning` | core/ctap_credential_store.c:465-474 | After a delete the credential is gone from the index and everything else is as before. |
| `Ctaphid.MessageToPackets` | core/ctaphid.c:74-135 | The loop emits one initialization packet and continuation packets numbered 0, 1, 2, ... that carry the payload in order, zero padded. |
| `Ctaphid.Reassembler.AllocateChannel` | core/ctaphid.c:21-26 | Hands out the next channel id, or 0 when only the broadcast id is left. |
| `Ctaphid.Reassembler.CopyPayloadToBuffer` | core/ctaphid.c:219-241 | Appends as much of the packet as the announced length still needs and reports completion; no byte is written outside the buffer. |
| `Ctaphid.Reassembler.ProcessPacket` | core/ctaphid.c:265-427 | The in-place reassembler takes exactly the step the run theorems below are about; PacketAnswer and TransactionIs say from the packets of a run what it answers and what it then holds. |
| `Ctaphid.Reassembler.HasIncompleteMessageTimeout` | core/ctaphid.c:189-207 | For any real times of the first packet and of the check: an incomplete message times out exactly when more than two seconds have passed, modulo one wrap of the 32-bit clock; within one wrap (49.7 days) exactly when more than two real seconds have passed. |
| `Ctaphid.Reassembler.ResetToIdle` | core/ctaphid.c:209-217 | Empties the buffer and keeps the allocated channels. |
| `CtaphidRuns.StepKeepsInv` | core/ctaphid.c:265-427 | Every packet, allocation and reset keeps the reassembler's invariant. |
| `CtaphidRuns.ReachableStates` | core/ctaphid.c:209-241 | In every reachable state the offset is min(payload length, 57 + 59 * next_seq), next_seq is at most 128, and the buffer is idle or belongs to an allocated channel. |
| `CtaphidRuns.AllocatedCidsFresh` | core/ctaphid.c:21-26 | Over any run, allocated channel ids are non-zero, below the broadcast id, and strictly increasing. |
| `CtaphidRuns.ForeignPacketHarmless` | core/ctaphid.c:295-427 | While a channel holds the buffer, no packet of another channel changes it. |
| `CtaphidRuns.RoundTrip` | core/ctaphid.c:74-427 | For every allocated channel, command other than INIT and CANCEL, and payload up to the maximum: its packets fed to an idle reassembler, interleaved with any packets of other channels and allocations, give BUFFERING until the last and then MESSAGE with the same channel, command and payload. |
| `CtaphidRuns.NoMixing` | core/ctaphid.c:310-427 | In every run, whatever is in the buffer is the concatenation, cut to the announced length, of packets one channel sent with consecutive sequence numbers. |
| `Sha256.Context.Init` | crypto/sha256/sha256.c:75-86 | Starts an empty message in the standard's initial state. |
| `Sha256.Context.Transform` | crypto/sha256/sha256.c:32-73 | The schedule and round loops compute the compression function of FIPS 180-4 section 6.2.2 on the buffered block. |
| `Sha256.Context.Update` | crypto/sha256/sha256.c:88-98 | Extends the absorbed message by exactly the given bytes, whatever was buffered before. |
| `Sha256.Context.CloseTail` | crypto/sha256/sha256.c:100-118 | Marks and zero-pads the tail to the length field, folding one block when the tail leaves no room for it, so that the result is the padding of section 5.1.1 in both cases. |
| `Sha256.Context.Final` | crypto/sha256/sha256.c:100-142 | Writes the digest of the whole absorbed message and nothing else. |
| `Sha256.HashChunks` | crypto/sha256/sha256.c:75-142 | For every message and every way of splitting it over update calls, final returns the FIPS 180-4 digest of the concatenation. |
| `Sha256.TailCases` | crypto/sha256/sha256.c:104-118 | The one-block and the two-block case both produce the standard's padding. |
| `Hmac.HmacContext.Init` | crypto/hmac/hmac.c:14-67 | Long keys are hashed, short ones padded; the inner hash has absorbed the inner pad and the outer pad is ready. |
| `Hmac.HmacContext.Update` | crypto/hmac/hmac.c:69-77 | Extends the authenticated text by the given bytes. |
| `Hmac.HmacContext.Final` | crypto/hmac/hmac.c:79-96 | Writes the RFC 2104 HMAC of the text under the key, passing the inner digest through the output buffer. |
| `Hmac.MacChunks` | crypto/hmac/hmac.c:14-96 | For every key, text and splitting of the text, init, update and final give the HMAC of the concatenated chunks. |
| `Hmac.HkdfExtract` | crypto/hkdf/hkdf.c:5-24 | Returns HMAC(salt, input key material). |
| `Hmac.HkdfExpand` | crypto/hkdf/hkdf.c:26-87 | Writes the first L bytes of T(1), T(2), ... in a row for every L up to 255 * 32, reading T(i-1) in place from the output, without the 8-bit counter wrapping before its last use. |
| `Hmac.HkdfDerive` | crypto/hkdf/hkdf.c:89-123 | Extract then expand. |
| `Hmac.LastBlock` | crypto/hkdf/hkdf.c:68-83 | Computes the last, partly used block in a buffer of its own. |
| `Hmac.ExpandIs` | crypto/hkdf/hkdf.c:26-87 | The output is a whole number of blocks of the RFC 5869 stream plus a prefix of the next one. |
| `NfcChain.Context.HandleResponse` | nfc/Src/ctap_nfc.c:79-120 | Sends a response whole, or its first piece with the exact rest kept pending, or an error status, as the expected length and the APDU form demand. |
| `NfcChain.Context.ChainOut` | nfc/Src/ctap_nfc.c:123-161 | Each accepted GET RESPONSE sends the next piece of what is pending and moves past it, sent or not; anything else is refused without a change. |
| `NfcChain.Context.ResetChain` | nfc/Src/nfc_utils.c:146-152 | Drops the pending response and both chaining flags. |
| `NfcChain.BuildResponse` | nfc/Src/nfc_utils.c:165-186 | Writes body and status word when both fit, otherwise sends nothing. |
| `NfcChain.ServeConserves` | nfc/Src/ctap_nfc.c:123-161 | For every sequence of GET RESPONSE lengths, the bodies sent plus what is still pending are exactly what was pending. |
| `NfcChain.ServeProgress` | nfc/Src/ctap_nfc.c:123-161 | Every reply carries at least one byte: the pending length strictly decreases. |
| `NfcChain.ServeStatusWords` | nfc/Src/ctap_nfc.c:147-160 | Every reply but the last says 61xx with xx = min(remaining, 255); the last says 9000. |
| `NfcChain.Context.Exchange` | nfc/Src/ctap_nfc.c:79-161 | A whole exchange on the context, as a reader runs it: what is read out of the transmit buffer reply by reply is what Exchanged says, and what is left pending is what Serve says. |
| `NfcChain.ReceivedWhen` | nfc/Src/nfc_utils.c:165-186 | What arrives from a series of GET RESPONSE commands is never more than what was sent, and all of it if and only if every piece fits the transmit buffer with its status word. |
| `NfcChain.LongResponseArrives` | nfc/Src/ctap_nfc.c:79-161 | A chained response reaches the reader byte for byte if and only if enough GET RESPONSE commands follow and every piece, the first included, fits the transmit buffer. |
| `NfcChain.EnoughCommands` | nfc/Src/ctap_nfc.c:123-161 | As many GET RESPONSE commands as there are pending bytes always suffice, whatever their Le. |
| `NfcChain.ShortLesFit` | nfc/Inc/nfc.h:23 | With Le up to 510, in particular with every short Le, all pieces fit the 512-byte buffer. |
| `NfcChain.LargeLeLoses` | nfc/Src/ctap_nfc.c:155-160 | The concrete failure: an extended GET RESPONSE for more than 510 of more than 510 pending bytes sends nothing and loses them, and no further commands bring the response. |
| `Apdu.ParseApdu` | nfc/Src/nfc_utils.c:25-143 | The parser fills the structure with what the ISO/IEC 7816-4 reading of the bytes says, with the data slice inside the input, and tells too short from malformed. |
| `Apdu.ParseEncode` | nfc/Src/nfc_utils.c:25-143 | Parsing the encoding of any command of cases 1, 2S (Le 1 to 255), 3S, 4S, 2E, 3E, 4E returns the command. |
| `Apdu.EncodeParse` | nfc/Src/nfc_utils.c:25-143 | Every accepted byte string is the encoding of what was read, so nothing else is accepted. |
| `Der.Trim` | core/ctap_asn1.c:25-95 | Chooses the dropped leading zeros and the pad byte so that the INTEGER is non-negative and minimal, the all-zero number included. |
| `Der.ConvertToDer` | core/ctap_asn1.c:25-95 | The output is at most 72 bytes and a strict DER decoder reads back exactly the two big-endian numbers. |
| `Der.DecodeInjective` | core/ctap_asn1.c:25-95 | No two byte strings decode to the same pair, so the output is the only encoding. |
| `Der.MinimalUnique` | core/ctap_asn1.c:25-95 | A number has one minimal non-negative content. |
| `TokenDevice.TokenState.BeginUsing` | core/ctap_pin_uv_auth_token.c:9-29 | Sets every variable but last_use as a newly issued token needs it. |
| `TokenDevice.TokenState.ClearAfterUse` | core/ctap_pin_uv_auth_token.c:114-133 | Uses up cached presence, cached verification and every permission but large-blob write, only on a token in use. |
| `CtapDevice.CtapState.StopUsing` | core/ctap_pin_uv_auth_token.c:140-169 | Zeroes a token in use and discards the stateful command; does nothing to an unused one. |
| `CtapDevice.CtapState.CheckUsageTimer` | core/ctap_pin_uv_auth_token.c:56-102 | Stops the token exactly when a limit has passed, reports that, and otherwise at most drops cached user presence. |
| `UvToken.CheckedTokenFresh` | core/ctap_pin_uv_auth_token.c:56-102 | After a timer check an in-use token is at most ten minutes old on the clock and, past 30 seconds, has been used; the check stops no other token. |
| `UvToken.RealAge` | core/ctap_pin_uv_auth_token.c:65-70 | A token that passes the check is at most ten real minutes old if and only if the 32-bit millisecond clock has not wrapped once since it was issued. |
| `UvToken.OldTokenRevives` | core/ctap_pin_uv_auth_token.c:65-70 | The concrete failure: a token left alone for exactly 2^32 ms passes the check as if it were new. |
| `UvToken.Survival` | core/ctap_pin_uv_auth_token.c:65-78 | Within one wrap, a token survives a check exactly when it is within ten minutes and, past 30 seconds, was used after it was issued with no wrap of the clock in between. |
| `TokenRuns.UnusedTokenIsZero` | core/ctap_pin_uv_auth_token.c:140-169 | In every reachable state a token not in use is entirely zero. |
| `TokenRuns.IssueNeedsPin` | core/ctap_pin.c:398-441 | A token is issued if and only if a token command presents the stored PIN while attempts are left, whatever its response; it starts with last_use = 0. |
| `TokenRuns.StoppedTokenDiscards` | core/ctap_pin_uv_auth_token.c:140-169 | Whatever stops or replaces a token leaves no stateful command of it behind. |
| `TokenRuns.UvBetweenIssues` | core/ctap_credentials.c:329-385 | Over every run, between two issued tokens all makeCredential, getAssertion and getNextAssertion responses with the uv bit are for one RP, and a makeCredential or getAssertion that also has the up bit is the last that verifies a pinUvAuthParam (hence at most one). |
| `TokenRuns.UvIsRecent` | core/ctap.c:305-316 | Over every run, a response with the uv bit, getNextAssertion included, comes within ten minutes on the 32-bit clock of a token issued in the same power cycle, and later than 30 seconds after that only if the token was used. |
| `PinDevice.PinState.UpdatePersistentState` | core/ctap_pin.c:41-56 | Writes the RAM copy over the one record the handle names and remembers the new handle; a failed write changes nothing and is not reported. |
| `PinDevice.PinState.DecrementAttempts` | core/ctap_pin.c:58-67 | Counts one wrong PIN in both counters; its two asserts are preconditions that every caller is proved to meet. |
| `PinDevice.PinState.ResetAttempts` | core/ctap_pin.c:69-80 | Restores both counters, writing the record only when the total changed. |
| `PinDevice.PinState.CheckRemainingAttempts` | core/ctap_pin.c:82-90 | Distinguishes a blocked PIN from one blocked until the next power cycle. |
| `PinDevice.PinState.HandleInvalidPin` | core/ctap_pin.c:92-98 | Counts the wrong PIN and answers with what is left. |
| `PinDevice.PinState.CheckPinHash` | core/ctap_pin.c:100-148 | Restores the attempts for the stored hash and counts a wrong PIN for anything else, malformed ciphertexts included; without a PIN it does neither. |
| `PinDevice.PinState.SetPin` | core/ctap_pin.c:165-299 | Stores hash and length of a PIN that meets the policy (at most 63 bytes and at least the minimum number of code points after zero stripping) and restores the attempts; otherwise changes nothing. |
| `PinDevice.StripZeros` | core/ctap_pin.c:200-208 | Finds the end of the PIN inside its zero padding. |
| `PinDevice.CountCodePoints` | core/ctap_pin.c:16-39 | Counts the bytes that start a UTF-8 code point. |
| `PinDevice.PinState.InitPersistentState` | core/ctap.c:6-53 | Loads the first stored record of the right size, otherwise the factory values. |
| `AuthenticatorInv.PersistKeepsStore` | core/ctap_pin.c:41-56 | After a successful write there is exactly one live PIN record and it equals the RAM copy; credentials and counter are untouched. |
| `AuthenticatorInv.CheckPinMoves` | core/ctap_pin.c:100-148 | The counters move exactly as the outcome says: restored if and only if the right PIN was presented, both down by one if and only if a wrong one was. |
| `AuthenticatorInv.SetNewKeeps` | core/ctap_pin.c:165-299 | A successful setPIN leaves a policy-conforming PIN in force with full attempts; a refused one changes nothing. |
| `AuthenticatorRuns.PinEffects` | core/ctap_pin.c:301-619 | Attempts are lost if and only if the request presents a wrong PIN (it parses, is complete, decapsulates, verifies and is permitted, a PIN is set, attempts are left, and the entry is not the stored hash); they are restored if and only if it presents the right one, sets a first PIN or resets the device; no command that checks a PIN succeeds without the right one; the write that counts a wrong PIN is lost if and only if the store has no room for it. |
| `AuthenticatorRuns.EffectAt` | core/ctap_pin.c:301-619 | The same for every event of every run; while there is room for two PIN records, no write of the record is lost. |
| `AuthenticatorRuns.TotalAttempts` | core/ctap_pin.c:41-148 | Over every run, power cycles included, in which no record write was lost: total attempts are 8 minus the wrong PINs presented since they were last restored, and the one live record equals the RAM copy. |
| `AuthenticatorRuns.BootAttempts` | core/ctap_pin.c:58-98 | Over every run, lost writes or not, boot attempts are 3 minus the wrong PINs presented in this power cycle, so there are at most 3 between successes. |
| `AuthenticatorRuns.BlockedUntilReset` | core/ctap_pin.c:82-98 | Over every run in which no record write was lost before the total reached 0: from then on no command that checks a PIN succeeds until a reset, power cycles or later lost writes notwithstanding. |
| `AuthenticatorRuns.PinSurvivesPowerCycle` | core/ctap.c:6-53 | A power cycle preserves PIN, hash and total attempts if and only if the record on flash agreed with RAM. |
| `PinWrites.WrongPinRemembered` | core/ctap_pin.c:52-55 | A wrong PIN is still counted after a power cycle if and only if the store had room for the new record. |
| `PinWrites.FullStoreForgets` | core/ctap_pin.c:52-55 | The concrete failure: with the record filling the store, a wrong PIN is forgotten by the next power cycle. |
| `PinWrites.SetPinSurvives` | core/ctap_pin.c:165-299 | A successful setPIN loses its write if and only if the store has no room for one record; a power cycle then brings back the state without a PIN, and otherwise the new PIN. |
| `PinWrites.ChangePinSurvives` | core/ctap_pin.c:344-396 | A successful changePIN loses a write if and only if the store has no room for the records it writes (two if attempts had been lost, otherwise one); the new PIN is in force after a power cycle if there was room, and otherwise exactly the old record is back, with its attempts restored if the first of two records fitted. |
| `PinWrites.FullStoreKeepsOldPin` | core/ctap_pin.c:52-55 | The concrete failure: with the record filling the store, changePIN to 1234 succeeds and the next power cycle brings the old PIN back. |
| `CtapDevice.CtapState.HandleAuthParam` | core/ctap_credentials.c:239-290 | Steps 1 and 2 of both commands, with their error codes. |
| `CtapDevice.CtapState.VerifyWithToken` | core/ctap_pin_protocol.c:381-401 | An unused token never verifies; any other attempt counts as a use. |
| `CtapDevice.CtapState.EnsureValidPinUvAuthParam` | core/ctap_credentials.c:329-385 | Demands signature, permission, RP and user verification in that order and binds an unbound token to the RP only when all hold: the acceptance condition is EnsureValidWhen below. |
| `CtapDevice.CtapState.EnsureUserPresent` | core/ctap_credentials.c:387-410 | Asks the user unless the token carries presence, and maps the answer to the status, as EnsurePresentWhen below says. |
| `CtapDevice.CtapState.ProcessExcludeList` | core/ctap_credentials.c:412-465 | The first listed credential of this RP that credProtect does not hide ends the command; a parse error before it does so earlier. |
| `CtapDevice.CtapState.ProcessAllowList` | core/ctap_credentials.c:467-529 | Collects exactly the listed, known, visible credentials of this RP in list order, parsing the whole list; ChosenAre below says from the records which those are. |
| `CtapDevice.CtapState.IncrementSignatureCounter` | core/ctap_credential_store.c:444-463 | Advances the global counter by 1 to 4. |
| `CtapDevice.CtapState.MakeCredential` | core/ctap_credentials.c:531-804 | The handler takes the step that MakeCredentialWhen, its refusals and MakeCredentialMeaning are about, on every path. |
| `CtapDevice.CtapState.GetAssertion` | core/ctap_credentials.c:1090-1299 | The handler takes the step that GetAssertionWhen, its refusals and ChosenAre are about, on every path. |
| `CtapDevice.CtapState.AssertFirst` | core/ctap_credentials.c:1237-1295 | Returns the first credential; remembers pointers to all of them only without an allow list and with more than one. |
| `CtapDevice.CtapState.ReadCredential` | core/ctap_credentials.c:978-1066 | Reads the bytes under a remembered pointer; if a record is there, live or buried, it is that record. |
| `CtapDevice.CtapState.ReadRelyingParty` | core/ctap_credential_management.c:76-103 | The same for a remembered RP: the hash in the record, and as many bytes as the RP ID had. |
| `CtapDevice.CtapState.GetNextAssertion` | core/ctap_credentials.c:1301-1355 | Advances the counter, then reads the next remembered pointer and returns what is there, or NOT_ALLOWED without an active getAssertion. |
| `CtapDevice.CtapState.EnumerateRpsBegin` | core/ctap_credential_management.c:105-161 | Collects the RPs of discoverable credentials for a token without RP, returns the first and remembers pointers to all. |
| `CtapDevice.CtapState.EnumerateRpsGetNextRp` | core/ctap_credential_management.c:163-187 | Returns what the next remembered pointers read, or NOT_ALLOWED without an active enumeration. |
| `CtapDevice.CtapState.EnumerateCredentialsBegin` | core/ctap_credential_management.c:231-331 | Collects one RP's credentials for a token of that RP or none, returns the first and remembers pointers to all. |
| `CtapDevice.CtapState.EnumerateCredentialsGetNextCredential` | core/ctap_credential_management.c:333-371 | Returns what the next remembered pointer reads, or NOT_ALLOWED without an active enumeration. |
| `CtapDevice.CtapState.GetCredsMetadata` | core/ctap_credential_management.c:47-74 | Reports the number of discoverable credentials and the exact remaining capacity for largest ones. |
| `CtapDevice.CtapState.EnsureTokenCanBeUsed` | core/ctap_credential_management.c:386-401 | A token bound to an RP may only touch credentials of that RP. |
| `CtapDevice.CtapState.DeleteCredentialCommand` | core/ctap_credential_management.c:403-429 | Discards the stateful command first, then deletes exactly the named credential if the token may; DeleteWhen below is the exact condition. |
| `CtapDevice.CtapState.UpdateUserInformationCommand` | core/ctap_credential_management.c:431-461 | Discards the stateful command first, then updates exactly the named credential if the token may; UpdateWhen below is the exact condition. |
| `CtapDevice.CtapState.VerifyManagement` | core/ctap_credential_management.c:3-45 | Needs a verified request and the cm permission. |
| `CtapDevice.CtapState.SetPin` | core/ctap_pin.c:301-342 | Refuses when a PIN is set, then behaves as PinState.SetPin. |
| `CtapDevice.CtapState.ChangePin` | core/ctap_pin.c:344-396 | Checks the old PIN before the new one and retires the token only after success. |
| `CtapDevice.CtapState.IssuePinToken` | core/ctap_pin.c:398-473 | A correct PIN retires the old token with its stateful command and puts a new one in use, bound to the RP if one is named. |
| `CtapDevice.CtapState.GetTokenWithPermissions` | core/ctap_pin.c:520-619 | The permission checks come before the PIN check. |
| `CtapDevice.CtapState.ResetCommand` | core/ctap_reset.c:3-59 | Within ten seconds on the clock of the last initialization (power-on or an earlier reset) and with the user's consent, leaves no byte of an earlier record in the memory and initializes again with the clock as it reads after the answer; token and stateful state, pointers into the erased store included, are left as they are. |
| `Resets.ResetWhen` | core/ctap_reset.c:18-23 | Over every run, a reset succeeds if and only if the user agrees and at most ten seconds on the 32-bit clock have passed since the last power-on or successful reset. |
| `Resets.FirstResetWhen` | core/ctap_reset.c:18-23 | As long as no reset has succeeded since the last power-on, the ten seconds count from that power-on, as section 6.6 of CTAP 2.1 wants it. |
| `Resets.ResetsForever` | core/ctap.c:99-101 | The concrete failure, for every capacity: resets nine seconds apart all succeed, any number of them after one power-on, the second already 18 seconds after it. |
| `CtapDevice.CtapState.constructor` | core/ctap.c:95-121 | Power-on: RAM is zero, the PIN state comes from the store, three boot attempts. |
| `CtapDevice.CtapState.BeginRequest` | core/ctap.c:305-316 | Both expiry checks, in order, on the one clock value of the request. |
| `CtapDevice.CtapState.DiscardStatefulIfExpired` | core/ctap.c:186-206 | Discards an active stateful command exactly after more than 30 seconds on the 32-bit clock. |
| `CtapDevice.CtapState.Request` | core/ctap.c:293-343 | One request to the device is one step of the runs the theorems quantify over, and keeps the invariant; the device supplies what stale pointers read, everything else of the step is the request as given. |
| `AuthenticatorInv.MakeCredentialOk` | core/ctap_credentials.c:531-804 | Keeps the invariant; the uv bit needs a token in use, of that RP and with user verification, and uses the verification up (that the parameter itself verified is UvVerified below). |
| `AuthenticatorInv.GetAssertionOk` | core/ctap_credentials.c:1090-1299 | The same for getAssertion, where only the up bit uses the verification up. |
| `AuthenticatorInv.ManagementOk` | core/ctap_credential_management.c:463-531 | Keeps the invariant and never moves the attempt counters or widens the token. |
| `AuthenticatorInv.ClientPinOk` | core/ctap_pin.c:633-705 | Keeps the invariant; a token changes only by retirement or reissue. |
| `AuthenticatorInv.DispatchOk` | core/ctap.c:208-268 | Every command, on every outcome, keeps the invariant (one PIN record, valid credentials, at most one counter item, zero unused token, 1 <= next < count <= 128, pointers inside the memory, a remembered uv bit only with the token of that RP) and moves attempts, token, store and stateful state only as allowed. |
| `AuthenticatorRuns.RequestChecks` | core/ctap.c:305-316 | After the checks a token in use is fresh, and a token they stopped took its stateful command along. |
| `Enumerations.BeginStep` | core/ctap_credential_management.c:105-331 | A successful begin hands out the first entry of exactly the wanted list and leaves the rest pending. |
| `Pointers.CredResolves` | core/ctap_credential_store.c:15-28 | A pointer to a stored credential reads that credential, from inside the memory. |
| `Pointers.PointerStable` | core/ctap_memory_storage.c:123-206 | As long as records are only buried and appended, that is until an erase, a pointer keeps reading the same record, even after the credential was deleted, updated or overwritten. |
| `Enumerations.PendingStable` | core/ctap_memory_storage.c:123-206 | Until a reset, what is still to be handed out does not change, whatever happens to the credentials meanwhile. |
| `Enumerations.NextStep` | core/ctap_credentials.c:1301-1355 | A get-next succeeds exactly when its own stateful command is active and the response can be produced; it then hands out the first pending entry, read at that moment, and restarts the timer, otherwise it changes nothing. |
| `Enumerations.OtherStep` | core/ctap.c:345-363 | Every other command leaves the stateful command alone or discards it. |
| `Enumerations.KeptWhen` | core/ctap.c:186-206 | The checks before a request keep an active stateful command if and only if at most 30 seconds passed on the 32-bit clock and the token has not expired. |
| `Enumerations.KeptReal` | core/ctap.c:186-206 | The same for real times: 30 seconds modulo one wrap of the clock, hence exactly 30 real seconds within 49.7 days. |
| `Enumerations.PendingConserved` | core/ctap_credential_management.c:163-187 | Over any stretch of a run in which nothing discards the stateful command and no reset succeeds, entries only move from pending to handed out, from the front. |
| `Enumerations.WantedOnce` | core/ctap_credential_store.c:509-650 | The list a begin command stands for names nothing twice. |
| `Enumerations.EnumerationComplete` | core/ctap_credential_management.c:105-371 | A begin and the get-next commands after it, up to a reset or whatever else disturbs them, hand out a prefix of the wanted list, in order and without repetition, and all of it exactly when the stateful command is over. |
| `Inventory.StockComplete` | core/ctap_credential_management.c:105-371 | On the response sequences of a run: enumerating the RPs completely, and then completely every RP that was handed out, lists each stored discoverable credential exactly once and nothing else, and as many as getCredsMetadata reports. |
| `Enumerations.OverMeansNotAllowed` | core/ctap_credentials.c:1325-1327 | After the last entry the next get-next is answered NOT_ALLOWED. |
| `AuthenticatorRuns.RunExists` | core/ctap.c:293-343 | Every sequence of requests and power cycles from an erased store is a run, and the invariant holds throughout it. |
| `Disclosure.AllowCollects` | core/ctap_credentials.c:467-529 | An allow list is accepted if and only if all of it parses and at most 128 of its credentials apply; then exactly those are collected, in list order. |
| `Disclosure.ExcludePasses` | core/ctap_credentials.c:412-465 | The exclude list lets a command pass if and only if every descriptor parses and names no credential of the RP that may be disclosed. |
| `Disclosure.GetAssertionMeaning` | core/ctap_credentials.c:1090-1299 | A successful getAssertion returns a stored credential that matches the RP (MatchesRequest below) and that credProtect allows, discoverable or named in the allow list, with the uv bit exactly when a PIN is set and a pinUvAuthParam was accepted; no getAssertion changes a credential. |
| `Disclosure.MakeCredentialMeaning` | core/ctap_credentials.c:531-804 | A successful makeCredential stores exactly one credential that describes the request, in place of the one it overwrites; nothing in the exclude list excluded it, and a discoverable one on a device with a PIN has the uv bit; MakeCredentialWhen below says exactly when it succeeds. |
| `Disclosure.CredProtectRespected` | core/ctap_credential_store.c:476-507 | Over every run, getAssertion discloses a level 3 credential only with user verification, and a level 2 credential only with it or when named; getNextAssertion obeys the same rule whenever no successful reset came after the last successful getAssertion, or the getAssertion it continues had user verification. |
| `Disclosure.NextRespectsWhen` | core/ctap_credentials.c:978-1066 | With a record under its pointer, a successful getNextAssertion obeys the rule if and only if that record, the collected one or not, may be disclosed under the remembered uv bit. |
| `StalePointers.ResetBetween` | core/ctap_reset.c:43-51 | The concrete failure, with any random material: two credentials, a getAssertion without user verification, a reset, two credentials of level 3 in the same places, and getNextAssertion discloses the second of them without user verification. |
| `SignCounts.CountMoves` | core/ctap_credential_store.c:444-463 | Every counted signature raises the stored counter, which is at most a fifth of the used bytes, so on a memory of 32-bit size it cannot wrap. |
| `SignCounts.SignCountsIncrease` | core/ctap_credential_store.c:444-463 | Over every run, power cycles included: unless the device was reset in between, a later response carries a strictly larger signature counter than an earlier one. |
| `Changes.ManagementChanges` | core/ctap_credential_management.c:386-461 | A management command that changes the credentials has a valid parameter of a token with the cm permission, and touches one credential of that token's RP. |
| `Changes.CredentialsChange` | core/ctap.c:208-268 | Stored credentials change only by makeCredential, by a reset the user agreed to, or by such a management command. |
| `Changes.ChangesAuthorized` | core/ctap_credential_management.c:3-45 | Over every run, stored credentials change only by makeCredential, by a successful reset, or by a management command that touches one credential under a valid parameter of a token with the cm permission, issued in the same power cycle at most ten minutes before on the 32-bit clock, and used since if more than 30 seconds before. |
| `RpScope.MatchesFromBytes` | core/ctap_credential_store.c:60-77 | From the bytes of the record: a credential matches an RP if and only if its RP ID bytes are the request's, or, with the truncation flag, its hash is. |
| `RpScope.MatchesRequest` | core/ctap_credential_store.c:60-77 | A created credential matches a request if and only if the two requests name the same RP ID, or, when the first was longer than 255 bytes, the same hash. |
| `RpScope.OverwritesOwn` | core/ctap_credential_store.c:120-158 | A discoverable create overwrites a credential whose record belongs to the RP and the user of the request, and overwrites one whenever there is one. |
| `Acceptance.SatisfiesWhen` | core/ctap_credential_store.c:476-579 | Without an allow list the queries select, from the records, exactly the discoverable credentials of that RP (or RP ID hash) that credProtect does not hide. |
| `Acceptance.EnsureValidWhen` | core/ctap_credentials.c:21-43 | A pinUvAuthParam is accepted if and only if it verifies under a token in use that has the permission, is free or of this RP, and stands for user verification; only then the token is bound, and every attempt on a token in use counts as a use. |
| `Acceptance.EnsurePresentWhen` | core/ctap_credentials.c:387-410 | User presence is given if and only if the user allows it now or a token in use still carries it; otherwise the status says whether the user cancelled. |
| `Acceptance.FirstWithIdIs` | core/ctap_credential_store.c:93-116 | A lookup finds the first stored credential with that id, and finds one whenever there is one. |
| `Acceptance.MakeCredentialWhen` | core/ctap_credentials.c:531-804 | makeCredential succeeds if and only if the request is acceptable, its parameter verified where one is needed, every exclude descriptor passes, the user agrees, credential and counter fit with random numbers for both, and the response can be produced; whatever is refused before the write writes nothing. |
| `Acceptance.AuthParamRefusals` | core/ctap_credentials.c:239-290 | An empty pinUvAuthParam only asks for a touch and answers whether a PIN is set; one without a protocol or with an unsupported one is refused; nothing else is. |
| `Acceptance.MakeRequestRefusals` | core/ctap_credentials.c:550-613 | The status of every makeCredential that is refused for the request itself, in the source's order. |
| `Acceptance.MakeCredentialRefusals` | core/ctap_credentials.c:329-465 | The status when the token, the first excluding descriptor or the user refuses. |
| `Acceptance.MakeWriteRefusals` | core/ctap_credentials.c:723-804 | The status of every makeCredential that passes the checks: what cannot be stored, KEY_STORE_FULL exactly when nothing would have been overwritten, the counter, or producing the response. |
| `Acceptance.MakeCredentialSpends` | core/ctap_credentials.c:655-662 | Once the user agreed the token keeps no presence, verification or permission but large-blob write, and the attempt to verify is its last use. |
| `AssertionAcceptance.ChosenAre` | core/ctap_credentials.c:467-529 | What getAssertion may return is, from the records: the credentials of this RP that credProtect allows and that the allow list names, or all discoverable ones in the order of the log. |
| `AssertionAcceptance.FirstNamed` | core/ctap_credentials.c:467-529 | Of several named credentials the one named first is returned. |
| `AssertionAcceptance.GetAssertionWhen` | core/ctap_credentials.c:1090-1299 | getAssertion succeeds if and only if the request is acceptable, its parameter verified where one is needed, the list parses, 1 to 128 credentials may be returned, the user agrees unless up is false, the extension is in order, the counter fits, and the response can be produced; then response and remembered pointers are exactly those. What is refused before changes nothing in the store. |
| `AssertionAcceptance.GetAssertionRefusals` | core/ctap_credentials.c:1090-1236 | The status of every getAssertion that is refused for the request, the token, an empty or too long selection, the user, or hmac-secret without up. |
| `AssertionAcceptance.AllowRefusals` | core/ctap_credentials.c:467-529 | An allow list ends with the error of the first entry that does not parse, or before it with INVALID_LENGTH at the 129th credential that applies. |
| `AssertionAcceptance.AssertRefusals` | core/ctap_credentials.c:1225-1295 | The status once the user is willing: hmac-secret without up, its own error, the counter, or producing the response. |
| `AssertionAcceptance.GetAssertionSpends` | core/ctap_credentials.c:1209-1223 | With up the token is spent once the user agreed, without up it keeps its rights; either way the use is noted. |
| `AssertionAcceptance.GetNextAssertionWhen` | core/ctap_credentials.c:1301-1355 | getNextAssertion succeeds if and only if a getAssertion is being continued, the counter fits and the response can be produced; it repeats that getAssertion's RP and flags. |
| `ManagementAcceptance.RunsWhen` | core/ctap_credential_management.c:463-531 | A subcommand runs if and only if it parses and is a get-next or carries a parameter that verifies under a token in use with the cm permission; otherwise the status says what is missing and nothing changes. |
| `ManagementAcceptance.DeleteWhen` | core/ctap_credential_management.c:403-429 | deleteCredential deletes exactly the first stored credential with that id if there is one the token may touch, and otherwise does nothing. |
| `ManagementAcceptance.UpdateWhen` | core/ctap_credential_management.c:431-461 | updateUserInformation replaces exactly that credential if and only if the user id is its own and the new record fits. |
| `ManagementAcceptance.NoTargetStatus` | core/ctap_credential_management.c:403-461 | Without such a credential both answer MISSING_PARAMETER, NO_CREDENTIALS or PIN_AUTH_INVALID, as it is not named, not stored, or of another RP. |
| `ManagementAcceptance.DeleteCommandWhen` | core/ctap_credential_management.c:403-531 | The whole command: Success if and only if it runs and there is such a credential, and Success means that it is gone. |
| `ManagementAcceptance.UpdateCommandWhen` | core/ctap_credential_management.c:431-531 | The whole command: Success if and only if it runs and such a credential can be replaced, and Success means that it was. |
| `ManagementAcceptance.MetadataWhen` | core/ctap_credential_management.c:47-74 | getCredsMetadata needs a token without RP and reports the number of stored discoverable credentials and the capacity EstimateExact is about. |
| `ManagementAcceptance.RpsBeginWhen` | core/ctap_credential_management.c:105-161 | enumerateRPsBegin succeeds if and only if the token has no RP, 1 to 128 RPs are stored and the response can be produced; it returns the first and the total. |
| `ManagementAcceptance.CredsBeginWhen` | core/ctap_credential_management.c:231-331 | The same for one RP's credentials and a token of that RP or none. |
| `ManagementAcceptance.CredsListed` | core/ctap_credential_management.c:231-331 | They are exactly the discoverable credentials with that RP ID hash, whatever their credProtect level. |
| `PinAcceptance.SetPinWhen` | core/ctap_pin.c:301-342 | setPIN succeeds if and only if no PIN is set, the request is complete, decapsulates and verifies, and the PIN has 4 code points or more and at most 63 bytes; it stores that PIN's hash, and otherwise changes nothing. |
| `PinAcceptance.ChangePinWhen` | core/ctap_pin.c:344-396 | changePIN succeeds if and only if the right PIN is presented and the new one meets the policy; only then the token is retired. |
| `PinAcceptance.TokenWhen` | core/ctap_pin.c:398-619 | A token command succeeds if and only if the right PIN is presented and the response can be produced; the right PIN alone puts exactly the token in use that was asked for, and anything else leaves token and stateful command alone. |
| `PinAcceptance.PinAnswers` | core/ctap_pin.c:344-619 | The status of every request that asks for the PIN, in the source's order: blocked, blocked until the next power cycle, malformed, no PIN, wrong PIN, then what comes after the right one. |
| `PinAcceptance.PinRequestRefusals` | core/ctap_pin.c:344-705 | The status of every other clientPIN request but setPIN (not parsed, unsupported protocol, missing or forbidden parameters, permissions that may not be asked for); none of them changes anything. |
| `PinAcceptance.RetriesReported` | core/ctap_pin.c:647-668 | Over every run without a lost record write, getPINRetries reports 8 minus the wrong PINs since the last right one, and asks for a power cycle exactly after three in this one. |
| `PinAcceptance.WrongPinAnswered` | core/ctap_pin.c:82-98 | Over every run without a lost record write, the eighth wrong PIN is answered PIN_BLOCKED, any other third of a power cycle PIN_AUTH_BLOCKED, and any other PIN_INVALID. |
| `PinAcceptance.ResetMeans` | core/ctap_reset.c:43-56 | After a successful reset there is no item, no PIN, and every attempt is back. |
| `PinAcceptance.ResetRefusals` | core/ctap_reset.c:18-42 | A reset that does not succeed changes nothing, and says whether it came too late or what the user answered. |
| `Utf8.CountsScalars` | core/ctap_pin.c:16-39 | On the UTF-8 encoding of any text the count is its number of characters. |
| `Utf8.PolicyOnText` | core/ctap_pin.c:165-235 | A zero-padded PIN is accepted if and only if its text has the minimum number of characters and its encoding at most 63 bytes. |
| `Origins.ConsentNeeded` | core/ctap_credentials.c:387-410 | Over every run: makeCredential, and getAssertion with up, only succeed when the user allowed it during that request, and otherwise write nothing. |
| `Origins.UvVerified` | core/ctap_credentials.c:329-385 | Only makeCredential and getAssertion verify a parameter for the uv bit, and only one that passes everything EnsureValidWhen asks. |
| `Origins.TokenGoesBack` | core/ctap_pin.c:398-619 | In every reachable state the token in use was issued by an earlier command that presented the right PIN in this power cycle, has not been replaced since, and has at most the permissions and the RP that command asked for. |
| `Origins.UvGoesBack` | core/ctap_credentials.c:329-385 | Over every run: a makeCredential or getAssertion response with the uv bit carried a parameter whose signature, permission, RP and user verification all hold, under a token that such a command issued with that permission and for no other RP. |
| `Origins.CredentialGoesBack` | core/ctap_credential_store.c:160-474 | Over every run: every stored credential was made by an earlier makeCredential that passed every check, the user's consent included; apart from the names it still has the keys, RP, user id, discoverability and level asked for then, and no reset came in between. |
| `Origins.AssertionGoesBack` | core/ctap_credentials.c:1090-1299 | Over every run: the credential a getAssertion returns was made by an earlier makeCredential for the same RP ID (or hash, when too long to store), and the level that request asked for is respected. |
| `CtaphidAnswers.AllocationAnswer` | core/ctaphid.c:21-26 | Over every run the channels are 1, 2, 3, ..., one per allocation, and 0 once the last one below broadcast is gone. |
| `CtaphidAnswers.TransactionIs` | core/ctaphid.c:265-427 | Over every run the buffer holds exactly the transaction that the packets, allocations and resets so far make: its first packet and time, its bytes, the sequence number it waits for, and whether it was cancelled. |
| `CtaphidAnswers.PacketAnswer` | core/ctaphid.c:295-427 | The answer to every packet of every run, as conditions on its bytes and that transaction: ALLOCATE_CHANNEL exactly to a broadcast INIT of length 8, CANCEL exactly while a whole CBOR message of that channel is held, CHANNEL_BUSY exactly to a legal first packet while one is open, and so on for every answer. |
| `CtaphidAnswers.Resynchronizes` | core/ctaphid.c:338-368 | An INIT of length 8 on the channel that holds an incomplete message empties the buffer, and the next message of that channel arrives whole. |
| `CtaphidAnswers.FragmentBytes` | core/ctaphid.c:74-135 | Every byte of every packet sent for a message: channel, command, big-endian length, sequence number, payload in order, zeros behind it. |
| `NfcChain.ServeSizes` | nfc/Src/ctap_nfc.c:140-147 | Every GET RESPONSE brings exactly as much as it asks for, Le 0 standing for 256, or all that is left. |
| `Sha256Constants.RoundConstant` | crypto/sha256/sha256.c:21-30 | Every round constant is the first 32 bits of the fractional part of the cube root of its prime (section 4.2.2 of FIPS 180-4). |
| `Sha256Constants.InitialHash` | crypto/sha256/sha256.c:75-86 | The initial hash value comes from the square roots of the first eight primes (section 5.3.3). |
| `Sha256Constants.Choice` | crypto/sha256/sha256.c:14 | Ch takes the bits of y where x has ones and those of z elsewhere (section 4.1.2). |
| `Sha256Constants.Majority` | crypto/sha256/sha256.c:15 | Maj takes the bits on which x and y agree, and those of z elsewhere. |
| `Sha256Constants.LengthBytesValue` | crypto/sha256/sha256.c:120-127 | The last eight bytes of the padding are the length in bits, most significant byte first. |

## Left out

- `ctap_memory_storage_init` over a non-empty memory: `ctap_memory_storage_find_write_index` returns 0 for it because the item key is cleared before the failing call; the store starts erased.
- Storage.MemoryStorage.constructor: assumes zeroed memory, as static memory is at power-on, of at most 2^31 - 1 bytes, so that the 32-bit offset arithmetic cannot wrap.
- Storage.MemoryStorage.FindItem: hands out a copy of the item's bytes where the source hands out a pointer to them; the pointers that outlive a call, those of the stateful commands, are modelled as handles that are read again. The break at a zero key is unreachable below the write index and not modelled.
- CtapDevice.CtapState.ReadCredential: where no record lies under a stale pointer, the bytes there are decoded with their variable part clipped to the memory; reads past the memory through arbitrary lengths are not modelled, and the theorems treat the outcome as arbitrary.
- Storage.MemoryStorage.CreateItem: sizes above 2^31 - 1 are excluded, as the offsets would wrap.
- The flash-backed storage of the firmware: hardware.
- Credential lists of 128 entries are sequences with that bound instead of arrays, and the union of the three stateful commands is one value: what an aborted begin leaves behind in the inactive union is not modelled.
- At most one discoverable credential per RP and user: not claimed, because the overwrite lookup also finds non-discoverable credentials (`core/ctap_credential_store.c:120-158`).
- CTAPHID debug asserts are treated as disabled: the one at `core/ctaphid.c:415` is reachable by a continuation packet after a zero-length message, and a further continuation packet after completion reports MESSAGE again.
- CtaphidRuns.RoundTrip: a reset of the buffer between the packets is excluded, since it ends the transaction.
- Keepalives, error packets and the USB side of CTAPHID.
- Sha256.Context.Final: stated for any word operations (`WordOps`), of which `FIPS_180_4` holds the standard's; the equivalence of the source's macros with those formulas is by reading, not proved.
- Sha256.Context.WriteDigest: writes the output word by word, where the source writes byte 0 of every word, then byte 1, and so on.
- Hmac.HmacContext.Init: the hash is fixed to SHA-256 (64-byte block, 32-byte output) instead of a table of function pointers.
- Incoming NFC command chaining: in the source each chained fragment restarts the buffer, and a pending response diverts new short requests; response chaining starts from a freshly selected applet.
- Apdu.ParseApdu: length checks of the extended form that no 16-bit length can fail are not modelled.
- CBOR parsing and encoding, elliptic curves, AES and random numbers: their outcomes are part of each request.
- Regeneration of the key-agreement key after a wrong PIN, and the token bytes themselves: crypto state without influence on the modelled decisions.
- Disclosure.CredProtectRespected: does not cover a getNextAssertion after a reset that followed its getAssertion, without user verification, because the source breaks the rule there (`StalePointers.ResetBetween`).
- AuthenticatorRuns.BlockedUntilReset: assumes that no write of the PIN record failed before the total reached 0; after a lost eighth decrement and a power cycle the source does allow another attempt.
- AuthenticatorRuns.TotalAttempts: assumes that no write of the PIN record failed, because the source swallows such a failure; `PinWrites` says exactly when that happens, and BootAttempts needs no such assumption.
- CtapDevice.CtapState.ResetCommand: the development override that drops the ten-second window is not modelled.
- authenticatorGetInfo and authenticatorSelection: they change none of the modelled state and appear as commands with an arbitrary status.
- The hmac-secret output, authenticator data layout, attestation and signatures of a response: a response is modelled by the credential, flags, RP and counter it carries, not by the user fields it includes only with the uv bit.

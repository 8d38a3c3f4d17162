/** The PIN state in place: attempt counters, the persistent record, checking and setting a PIN. */
module PinDevice {
  import opened Bytes
  import opened ItemLog
  import opened Storage
  import opened CtapStatus
  import opened Pin

  class PinState {
    const storage: MemoryStorage
    var record: PinRecord
    var handle: nat
    var bootAttempts: byte

    ghost function View(): Pin.State
      reads this, storage
    {
      Pin.State(storage.log, storage.memory.Length, record, handle, bootAttempts)
    }

    ghost predicate Valid()
      reads this, storage, storage.memory
    {
      storage.Valid() && HandleOk(View())
    }

    constructor (storage: MemoryStorage)
      requires storage.Valid()
      ensures this.storage == storage && Valid()
      ensures View() == Pin.State(storage.log, storage.memory.Length, ZERO_RECORD, 0, 0)
    {
      this.storage := storage;
      record, handle, bootAttempts := ZERO_RECORD, 0, 0;
    }

    method UpdatePersistentState() returns (ghost kept: bool)
      requires Valid()
      modifies this`handle, storage, storage.memory
      ensures Valid() && (View(), kept) == Persist(old(View()))
    {
      PersistHandle(View());
      var item := new Item(handle, KEY_PIN_INFO, Pack(record));
      var status := storage.CreateOrUpdateItem(item);
      if status == Ok {
        handle := item.handle;
      }
      kept := status == Ok;
    }

    method DecrementAttempts() returns (ghost effect: Effect)
      requires Valid() && bootAttempts > 0 && record.totalAttempts > 0
      modifies this, storage, storage.memory
      ensures Valid() && (View(), effect) == Pin.DecrementAttempts(old(View()))
    {
      bootAttempts := bootAttempts - 1;
      record := record.(totalAttempts := record.totalAttempts - 1);
      ghost var kept := UpdatePersistentState();
      effect := Effect(true, false, !kept);
    }

    method ResetAttempts(performPersistentUpdate: bool) returns (ghost effect: Effect)
      requires Valid()
      modifies this, storage, storage.memory
      ensures Valid() && (View(), effect) == Pin.ResetAttempts(old(View()), performPersistentUpdate)
    {
      bootAttempts := PER_BOOT_ATTEMPTS;
      effect := Effect(false, true, false);
      if record.totalAttempts < TOTAL_ATTEMPTS {
        record := record.(totalAttempts := TOTAL_ATTEMPTS);
        if performPersistentUpdate {
          ghost var kept := UpdatePersistentState();
          effect := Effect(false, true, !kept);
        }
      }
    }

    method CheckRemainingAttempts() returns (status: CtapStatus)
      ensures status == CheckRemaining(View())
    {
      if record.totalAttempts == 0 {
        return PinBlocked;
      }
      if bootAttempts == 0 {
        return PinAuthBlocked;
      }
      return Success;
    }

    method HandleInvalidPin() returns (status: CtapStatus, ghost effect: Effect)
      requires Valid() && CheckRemaining(View()) == Success
      modifies this, storage, storage.memory
      ensures Valid() && (View(), status, effect) == HandleInvalid(old(View()))
    {
      effect := DecrementAttempts();
      status := CheckRemainingAttempts();
      if status != Success {
        return;
      }
      status := PinInvalid;
    }

    /** entry is the decrypted pinHashEnc, or None when its length was wrong or it did not decrypt. */
    method CheckPinHash(entry: Option<seq<byte>>) returns (status: CtapStatus, ghost effect: Effect)
      requires Valid() && CheckRemaining(View()) == Success
      modifies this, storage, storage.memory
      ensures Valid() && (View(), status, effect) == Pin.CheckPinHash(old(View()), entry)
    {
      if !record.isSet {
        return PinNotSet, NONE;
      }
      if entry.None? {
        status, effect := HandleInvalidPin();
        return;
      }
      if |entry.value| != HASH_SIZE || entry.value != record.hash {
        status, effect := HandleInvalidPin();
        return;
      }
      effect := ResetAttempts(true);
      return Success, effect;
    }

    method CheckPin(decapsulates: bool, entry: Option<seq<byte>>) returns (status: CtapStatus, ghost effect: Effect)
      requires Valid()
      modifies this, storage, storage.memory
      ensures Valid() && (View(), status, effect) == Pin.CheckPin(old(View()), decapsulates, entry)
    {
      effect := NONE;
      status := CheckRemainingAttempts();
      if status != Success {
        return;
      }
      if !decapsulates {
        return InvalidParameter, NONE;
      }
      status, effect := CheckPinHash(entry);
    }

    /** Validates the new PIN, then stores its hash and length and restores the attempts. */
    method SetPin(newPin: NewPin) returns (status: CtapStatus, ghost effect: Effect)
      requires Valid() && (newPin.Padded? ==> |newPin.bytes| == PADDED_PIN_SIZE)
      modifies this, storage, storage.memory
      ensures Valid() && (View(), status, effect) == SetNew(old(View()), newPin)
    {
      effect := NONE;
      match newPin
      case BadLength => status := InvalidParameter;
      case Undecryptable => status := PinAuthInvalid;
      case Padded(bytes, digest) =>
        var length := StripZeros(bytes);
        if length > 63 {
          return PinPolicyViolation, NONE;
        }
        var codePoints := CountCodePoints(bytes[..length]);
        if codePoints < record.minCodePoints as int {
          return PinPolicyViolation, NONE;
        }
        if digest.None? {
          return Other, NONE;
        }
        CodePointsBound(bytes[..length]);
        record := record.(hash := digest.value);
        record := record.(codePoints := codePoints);
        record := record.(isSet := true);
        effect := ResetAttempts(false);
        ghost var kept := UpdatePersistentState();
        effect := effect.(lostWrite := !kept);
        status := Success;
    }

    /** Loads the persistent record at power-on, or sets the factory values. */
    method InitPersistentState()
      requires storage.Valid()
      modifies this
      ensures Valid() && View() == Load(old(View())).(bootAttempts := old(bootAttempts))
    {
      var item := new Item(0, KEY_PIN_INFO, []);
      var status := storage.FindItem(item);
      if status == Ok {
        assert Items(storage.log, KEY_PIN_INFO)[0] == Entry(item.handle, item.key, item.data);
        ItemsAreHandles(storage.log, 0, KEY_PIN_INFO, 0);
        if item.size == RECORD_SIZE {
          handle := item.handle;
          record := Unpack(item.data);
          return;
        }
      }
      record := record.(totalAttempts := TOTAL_ATTEMPTS, minCodePoints := MIN_CODE_POINTS, isSet := false);
      handle := 0;
    }
  }

  /** The position after the last byte of the padded PIN that is not zero. */
  method StripZeros(padded: seq<byte>) returns (length: nat)
    ensures length <= |padded| && padded[..length] == Stripped(padded)
  {
    length := |padded|;
    assert padded[..length] == padded;
    while length > 0
      invariant length <= |padded| && Stripped(padded) == Stripped(padded[..length])
    {
      if padded[length - 1] != 0 {
        break;
      }
      assert padded[..length][..length - 1] == padded[..length - 1];
      length := length - 1;
    }
  }

  method CountCodePoints(pin: seq<byte>) returns (count: nat)
    ensures count == CodePoints(pin)
  {
    count := 0;
    for i := 0 to |pin|
      invariant count == CodePoints(pin[..i])
    {
      assert pin[..i + 1][..i] == pin[..i];
      if StartsCodePoint(pin[i]) {
        count := count + 1;
      }
    }
    assert pin[..|pin|] == pin;
  }
}

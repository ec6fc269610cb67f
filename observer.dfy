/**
 * The state overlay `KeyObserved`: a virtual joypad that watches a fixed set of
 * DirectInput scan codes, keeps one byte value per watched code, and splices
 * those values into the 256-slot key-state buffer of `GetDeviceState()`.
 * Every operation is modelled as one atomic step; the mutex that makes them
 * atomic in the program is not modelled.
 */
module Observer {
  import opened DIK
  import opened NoDup

  /** The error of a lookup; `NoError` stands for Go's `nil` error. */
  datatype Error = NoError | NotObserved

  /** A Go result pair `(value, err)`. */
  datatype Reply<T> = Reply(value: T, err: Error)

  /**
   * The raw buffer after the splice of `Out`: every watched slot holds the
   * watched key's value, every other slot keeps what the driver put there.
   */
  function Splice(raw: seq<uint8>, keys: map<uint8, uint8>): (r: seq<uint8>)
    requires |raw| == 256
    ensures |r| == 256
    ensures forall k :: k in keys ==> r[k] == keys[k]
    ensures forall k: uint8 :: k !in keys ==> r[k] == raw[k]
  {
    seq(256, i requires 0 <= i < 256 =>
      var k := i as uint8; if k in keys then keys[k] else raw[i])
  }

  /** Splicing twice with the same table is the same as splicing once. */
  lemma SpliceIdempotent(raw: seq<uint8>, keys: map<uint8, uint8>)
    requires |raw| == 256
    ensures Splice(Splice(raw, keys), keys) == Splice(raw, keys)
  {
  }

  /** The spliced buffer depends on the raw buffer only at unwatched slots. */
  lemma SpliceOverridesWatched(raw1: seq<uint8>, raw2: seq<uint8>, keys: map<uint8, uint8>)
    requires |raw1| == 256 && |raw2| == 256
    requires forall k: uint8 :: k !in keys ==> raw1[k] == raw2[k]
    ensures Splice(raw1, keys) == Splice(raw2, keys)
  {
  }

  class KeyObserved {
    /** The buffer of the last `Out` call; `null` until `Out` is first called. */
    var actualKeys: array?<uint8>
    /** The watched scan codes with their values. */
    var availableKeys: map<uint8, uint8>
    /** The number of watched codes, cached at construction. */
    var nAvailableKeys: int

    /** The cached count matches the table, and a bound buffer has 256 slots. */
    ghost predicate Valid()
      reads this
    {
      && nAvailableKeys == |availableKeys|
      && (actualKeys != null ==> actualKeys.Length == 256)
    }

    /**
     * `NewKeyObserver`: watches every distinct code of `scanCodes`, each one
     * released; no buffer is bound yet.
     */
    constructor (scanCodes: seq<uint8>)
      ensures Valid()
      ensures availableKeys.Keys == set c | c in scanCodes
      ensures forall c :: c in availableKeys ==> availableKeys[c] == KeyReleased
      ensures NumberOfKeys() == |set c | c in scanCodes|
      ensures StateRaw() == null
    {
      var scanCodesNoDup := ScanCodesNoDup(scanCodes);
      var keys: map<uint8, uint8> := map[];
      for i := 0 to |scanCodesNoDup|
        invariant keys.Keys == set c | c in scanCodesNoDup[..i]
        invariant forall c :: c in keys ==> keys[c] == KeyReleased
      {
        assert scanCodesNoDup[..i + 1] == scanCodesNoDup[..i] + [scanCodesNoDup[i]];
        keys := keys[scanCodesNoDup[i] := KeyReleased];
      }
      assert scanCodesNoDup[..|scanCodesNoDup|] == scanCodesNoDup;
      NoDupLength(scanCodes);
      assert keys.Keys == set c | c in scanCodes;
      actualKeys := null;
      availableKeys := keys;
      nAvailableKeys := |keys|;
    }

    /** The number of watched codes. */
    function NumberOfKeys(): (n: int)
      requires Valid()
      reads this
      ensures n == |availableKeys.Keys|
    {
      nAvailableKeys
    }

    /** Whether `scanCode` is one of the watched codes. */
    function IsAvailable(scanCode: uint8): (r: bool)
      reads this
      ensures r <==> scanCode in availableKeys.Keys
    {
      scanCode in availableKeys
    }

    /**
     * `StateRaw` as the program writes it: it returns its own named result,
     * which is never assigned, so it is always `nil`.
     */
    function StateRawAsWritten(): (actualKeys: array?<uint8>)
      ensures actualKeys == null
    {
      null
    }

    /** The buffer bound by the last `Out` call, as the comment of `StateRaw` describes. */
    function StateRaw(): (r: array?<uint8>)
      requires Valid()
      reads this
      ensures r != null ==> r.Length == 256
    {
      actualKeys
    }

    /** A copy of the table, made key by key in no particular order. */
    method StateAll() returns (copyAvailableKeys: map<uint8, uint8>)
      ensures copyAvailableKeys == availableKeys
    {
      copyAvailableKeys := map[];
      var rest := availableKeys.Keys;
      while rest != {}
        invariant rest <= availableKeys.Keys
        invariant copyAvailableKeys.Keys == availableKeys.Keys - rest
        invariant forall k :: k in copyAvailableKeys ==> copyAvailableKeys[k] == availableKeys[k]
        decreases rest
      {
        var k :| k in rest;
        copyAvailableKeys := copyAvailableKeys[k := availableKeys[k]];
        rest := rest - {k};
      }
    }

    /** The value of a watched key, or `(0, error)` for a code that is not watched. */
    function State(scanCode: uint8): (r: Reply<uint8>)
      reads this
      ensures r.err == NoError <==> IsAvailable(scanCode)
      ensures IsAvailable(scanCode) ==> r.value == availableKeys[scanCode]
      ensures !IsAvailable(scanCode) ==> r.value == 0
    {
      if scanCode in availableKeys then Reply(availableKeys[scanCode], NoError)
      else Reply(0, NotObserved)
    }

    /**
     * Whether a key reads as released; the error of `State` is passed through
     * with `false`, the zero value of the named result.
     */
    function IsReleased(scanCode: uint8): (r: Reply<bool>)
      reads this
      ensures r.err == State(scanCode).err
      ensures r.value <==> IsAvailable(scanCode) && availableKeys[scanCode] == KeyReleased
    {
      var val := State(scanCode);
      if val.err != NoError then Reply(false, val.err)
      else if val.value == KeyReleased then Reply(true, NoError)
      else Reply(false, NoError)
    }

    /** The negation of `IsReleased`, with the same error. */
    function IsProbablyPressed(scanCode: uint8): (r: Reply<bool>)
      reads this
      ensures r.err == State(scanCode).err
      ensures r.value <==> !IsAvailable(scanCode) || availableKeys[scanCode] != KeyReleased
    {
      var released := IsReleased(scanCode);
      Reply(!released.value, released.err)
    }

    /** Overwrites the value of a watched key; a code that is not watched is ignored. */
    method In(scanCode: uint8, value: uint8)
      requires Valid()
      modifies this`availableKeys
      ensures Valid()
      ensures availableKeys.Keys == old(availableKeys.Keys)
      ensures scanCode in availableKeys ==> availableKeys[scanCode] == value
      ensures forall k :: k in availableKeys && k != scanCode ==> availableKeys[k] == old(availableKeys[k])
      ensures scanCode !in old(availableKeys) ==> availableKeys == old(availableKeys)
    {
      if IsAvailable(scanCode) {
        availableKeys := availableKeys[scanCode := value];
      }
    }

    /** `In` with `KeyPressed`. */
    method PressKey(scanCode: uint8)
      requires Valid()
      modifies this`availableKeys
      ensures Valid()
      ensures availableKeys == if scanCode in old(availableKeys)
        then old(availableKeys)[scanCode := KeyPressed] else old(availableKeys)
      ensures IsAvailable(scanCode) ==> State(scanCode) == Reply(KeyPressed, NoError)
    {
      In(scanCode, KeyPressed);
    }

    /** `In` with `KeyReleased`. */
    method ReleaseKey(scanCode: uint8)
      requires Valid()
      modifies this`availableKeys
      ensures Valid()
      ensures availableKeys == if scanCode in old(availableKeys)
        then old(availableKeys)[scanCode := KeyReleased] else old(availableKeys)
      ensures IsAvailable(scanCode) ==> State(scanCode) == Reply(KeyReleased, NoError)
    {
      In(scanCode, KeyReleased);
    }

    /**
     * The hook called from `GetDeviceState()`: binds the caller's 256-slot
     * buffer and writes the value of every watched key into the slot of its
     * scan code, leaving the other slots as they were.
     */
    method Out(lpvData: array<uint8>)
      requires Valid()
      requires lpvData.Length == 256
      modifies this`actualKeys, lpvData
      ensures Valid()
      ensures StateRaw() == lpvData
      ensures availableKeys == old(availableKeys)
      ensures lpvData[..] == Splice(old(lpvData[..]), availableKeys)
    {
      actualKeys := lpvData;
      var rest := availableKeys.Keys;
      while rest != {}
        invariant actualKeys == lpvData
        invariant rest <= availableKeys.Keys
        invariant forall k: uint8 ::
                    actualKeys[k] == if k in availableKeys && k !in rest then availableKeys[k] else old(lpvData[k])
        decreases rest
      {
        var scanCode :| scanCode in rest;
        actualKeys[scanCode] := availableKeys[scanCode];
        rest := rest - {scanCode};
      }
      ghost var spliced := Splice(old(lpvData[..]), availableKeys);
      forall i | 0 <= i < 256 ensures lpvData[i] == spliced[i] {
        var k := i as uint8;
        assert lpvData[k] == spliced[k];
      }
    }
  }
}

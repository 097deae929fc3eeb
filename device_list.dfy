/** The device-list walker (parse_device_names): it steps through the
    length-prefixed records after the 16-byte header and records, for each
    device it walks completely, its display name and the offset of its
    userAcceptState field. */
module DeviceList {
  import opened Bytes

  /** "unknown", the name given to a device without a name. */
  const Unknown: seq<byte> := [0x75, 0x6E, 0x6B, 0x6E, 0x6F, 0x77, 0x6E]

  /** Name bytes kept: the 256-byte name buffer holds 255 bytes and a NUL. */
  const MaxNameBytes: nat := 255

  /** Blob layout: checksum (8 bytes), version (4), device count (4). */
  const HeaderLen: nat := 16
  const CountOffset: nat := 12

  function Min(a: nat, b: nat): nat { if a <= b then a else b }

  /** One parsed device: its display name (the bytes copied into the
      name buffer) and the offset of its userAcceptState field. */
  datatype Device = Device(name: seq<byte>, position: nat)

  /** What the walker returns: the devices it recorded, and whether some
      pass read bytes beyond the end of the blob. */
  datatype Walk = Walk(devices: seq<Device>, overRead: bool)

  /** The outcome of one pass of the walker's loop body: it either leaves
      the loop (`overRead` says whether the pass read past the blob first)
      or records a device and moves on to the next record at `next`. */
  datatype RecordStep = Stop(overRead: bool) | Record(device: Device, next: nat)

  /** At most `budget` devices, each recorded at an offset in [lo, |blob|]
      with at most 255 name bytes, in increasing order of offset. */
  predicate WalkedWithin(w: Walk, blob: seq<byte>, lo: nat, budget: nat)
  {
    && |w.devices| <= budget
    && (forall k :: 0 <= k < |w.devices| ==>
          lo <= w.devices[k].position <= |blob| && |w.devices[k].name| <= MaxNameBytes)
    && (forall i, j :: 0 <= i < j < |w.devices| ==> w.devices[i].position < w.devices[j].position)
  }

  // The walk, one function per field of a record. `budget` is the number
  // of passes the loop may still make; a Walk([], _) result is a `break`.

  /** The walk from the record at `offset`: deviceUniqueId first. */
  function WalkFrom(blob: seq<byte>, offset: nat, budget: nat): (w: Walk)
    decreases budget, 4
  {
    if budget == 0 || offset + 2 > |blob| then Walk([], false)
    else AfterId(blob, offset + 2 + ReadBe16(blob, offset), budget)
  }

  /** From the end of deviceUniqueId: the length of smartphoneType. When
      fewer than two bytes remain, that length is read from beyond the
      blob; whatever the read yields, the offset then lies past the end
      and the pass stops. */
  function AfterId(blob: seq<byte>, idEnd: nat, budget: nat): (w: Walk)
    requires budget > 0
    decreases budget, 3
  {
    if idEnd > |blob| then Walk([], false)
    else if idEnd + 2 > |blob| then Walk([], true)
    else AfterType(blob, idEnd + 2 + ReadBe16(blob, idEnd), budget)
  }

  /** From the end of smartphoneType: the has-name flag. */
  function AfterType(blob: seq<byte>, typeEnd: nat, budget: nat): (w: Walk)
    requires budget > 0
    decreases budget, 2
  {
    if typeEnd + 1 > |blob| then Walk([], false)
    else if blob[typeEnd] != 0 then NameField(blob, typeEnd + 1, budget)
    else AfterName(blob, Unknown, typeEnd + 1, budget)
  }

  /** The name of a named device; at most 255 of its bytes are kept. */
  function NameField(blob: seq<byte>, nameStart: nat, budget: nat): (w: Walk)
    requires budget > 0
    decreases budget, 1
  {
    if nameStart + 2 > |blob| then Walk([], false)
    else
      var len := ReadBe16(blob, nameStart);
      if nameStart + 2 + len > |blob| then Walk([], false)
      else
        var name := blob[nameStart + 2..nameStart + 2 + Min(len, MaxNameBytes)];
        AfterName(blob, name, nameStart + 2 + len, budget)
  }

  /** From userAcceptState at `pos`: the device is recorded once the two
      flags, lastMode and the length of lastConnectionType are in the
      blob; the end of lastConnectionType is not checked. */
  function AfterName(blob: seq<byte>, name: seq<byte>, pos: nat, budget: nat): (w: Walk)
    requires pos <= |blob| && |name| <= MaxNameBytes && budget > 0
    decreases budget, 0
  {
    if pos + 2 > |blob| then Walk([], false)
    else
      var stateEnd := pos + 2 + ReadBe16(blob, pos);
      if stateEnd > |blob| then Walk([], false)
      else
        var typeAt := stateEnd + 1 + 1 + 4;
        if typeAt + 2 > |blob| then Walk([], false)
        else
          var rest := WalkFrom(blob, typeAt + 2 + ReadBe16(blob, typeAt), budget - 1);
          Walk([Device(name, pos)] + rest.devices, rest.overRead)
  }

  // The walk stays within its bounds: one lemma per function above.

  /** Bounds from a later offset hold from an earlier one. */
  lemma WithinFrom(w: Walk, blob: seq<byte>, lo: nat, lo': nat, budget: nat)
    requires WalkedWithin(w, blob, lo, budget) && lo' <= lo
    ensures WalkedWithin(w, blob, lo', budget)
  {
  }

  lemma {:induction false} WalkFromWithin(blob: seq<byte>, offset: nat, budget: nat)
    decreases budget, 4
    ensures WalkedWithin(WalkFrom(blob, offset, budget), blob, offset, budget)
  {
    if budget > 0 && offset + 2 <= |blob| {
      AfterIdWithin(blob, offset + 2 + ReadBe16(blob, offset), budget);
    }
  }

  lemma {:induction false} AfterIdWithin(blob: seq<byte>, idEnd: nat, budget: nat)
    requires budget > 0
    decreases budget, 3
    ensures WalkedWithin(AfterId(blob, idEnd, budget), blob, idEnd, budget)
  {
    if idEnd + 2 <= |blob| {
      AfterTypeWithin(blob, idEnd + 2 + ReadBe16(blob, idEnd), budget);
    }
  }

  lemma {:induction false} AfterTypeWithin(blob: seq<byte>, typeEnd: nat, budget: nat)
    requires budget > 0
    decreases budget, 2
    ensures WalkedWithin(AfterType(blob, typeEnd, budget), blob, typeEnd, budget)
  {
    if typeEnd + 1 <= |blob| {
      if blob[typeEnd] != 0 {
        NameFieldWithin(blob, typeEnd + 1, budget);
      } else {
        AfterNameWithin(blob, Unknown, typeEnd + 1, budget);
      }
    }
  }

  lemma {:induction false} NameFieldWithin(blob: seq<byte>, nameStart: nat, budget: nat)
    requires budget > 0
    decreases budget, 1
    ensures WalkedWithin(NameField(blob, nameStart, budget), blob, nameStart, budget)
  {
    var w := NameField(blob, nameStart, budget);
    if nameStart + 2 > |blob| || nameStart + 2 + ReadBe16(blob, nameStart) > |blob| {
      assert w.devices == [];
    } else {
      var len := ReadBe16(blob, nameStart);
      var name := blob[nameStart + 2..nameStart + 2 + Min(len, MaxNameBytes)];
      var pos := nameStart + 2 + len;
      assert w == AfterName(blob, name, pos, budget);
      AfterNameWithin(blob, name, pos, budget);
      WithinFrom(w, blob, pos, nameStart, budget);
    }
  }

  lemma {:induction false} AfterNameWithin(blob: seq<byte>, name: seq<byte>, pos: nat, budget: nat)
    requires pos <= |blob| && |name| <= MaxNameBytes && budget > 0
    decreases budget, 0
    ensures WalkedWithin(AfterName(blob, name, pos, budget), blob, pos, budget)
  {
    if pos + 2 <= |blob| {
      var stateEnd := pos + 2 + ReadBe16(blob, pos);
      var typeAt := stateEnd + 1 + 1 + 4;
      if stateEnd <= |blob| && typeAt + 2 <= |blob| {
        var next := typeAt + 2 + ReadBe16(blob, typeAt);
        var rest := WalkFrom(blob, next, budget - 1);
        WalkFromWithin(blob, next, budget - 1);
        var ds := [Device(name, pos)] + rest.devices;
        assert AfterName(blob, name, pos, budget).devices == ds;
        forall k | 0 < k < |ds|
          ensures ds[k] == rest.devices[k - 1] && pos < ds[k].position
        {
        }
      }
    }
  }

  /** Number of passes the loop may make: the stored device count, capped
      at the caller's maximum. */
  function Budget(deviceCount: nat, maxDevices: int): nat
  {
    if maxDevices <= 0 then 0 else Min(deviceCount, maxDevices as nat)
  }

  /** parse_device_names as a whole: the walk from the first record, with
      as many passes as the stored count and the caller's maximum allow. */
  function DeviceWalk(blob: seq<byte>, maxDevices: int): (w: Walk)
  {
    if |blob| < HeaderLen then Walk([], false)
    else WalkFrom(blob, HeaderLen, Budget(ReadBe32(blob, CountOffset), maxDevices))
  }

  /** Nothing is found in a blob shorter than its header; otherwise at most
      min(device count, maximum) devices, every position past the header
      and inside the blob, in increasing order. */
  lemma DeviceWalkWithin(blob: seq<byte>, maxDevices: int)
    ensures var w := DeviceWalk(blob, maxDevices);
            && (|blob| < HeaderLen ==> w.devices == [] && !w.overRead)
            && |w.devices| <= (if maxDevices <= 0 then 0 else maxDevices)
            && (|blob| >= HeaderLen ==> |w.devices| <= ReadBe32(blob, CountOffset))
            && WalkedWithin(w, blob, HeaderLen, |w.devices|)
  {
    if |blob| >= HeaderLen {
      WalkFromWithin(blob, HeaderLen, Budget(ReadBe32(blob, CountOffset), maxDevices));
    }
  }

  /** The walk after one pass that ended in `step`. */
  function Continue(blob: seq<byte>, step: RecordStep, budget: nat): Walk
    requires budget > 0
  {
    match step
    case Stop(over) => Walk([], over)
    case Record(d, next) =>
      var rest := WalkFrom(blob, next, budget - 1);
      Walk([d] + rest.devices, rest.overRead)
  }

  /** The first part of one pass of the loop body of parse_device_names,
      exactly as written, over the record at `start`: it skips
      deviceUniqueId and smartphoneType; each `break` of the loop is a
      Stop. `stray` stands for the two bytes the length read of
      smartphoneType fetches when it lies beyond the blob. Every other read
      is inside the blob. */
  method PassAsWritten(blob: seq<byte>, start: nat, stray: nat, ghost budget: nat)
    returns (step: RecordStep)
    requires budget > 0
    ensures WalkFrom(blob, start, budget) == Continue(blob, step, budget)
  {
    var offset := start;
    if offset + 2 > |blob| {
      return Stop(false);
    }
    var strLen := ReadBe16(blob, offset);
    offset := offset + 2 + strLen;
    assert WalkFrom(blob, start, budget) == AfterId(blob, offset, budget);
    if offset > |blob| {
      return Stop(false);
    }
    // The length of smartphoneType, read without checking that two bytes remain.
    ghost var idEnd := offset;
    var overRead := offset + 2 > |blob|;
    strLen := if overRead then stray else ReadBe16(blob, offset);
    offset := offset + 2 + strLen;
    if offset + 1 > |blob| {
      assert AfterId(blob, idEnd, budget) == Walk([], overRead);
      return Stop(overRead);
    }
    assert AfterId(blob, idEnd, budget) == AfterType(blob, offset, budget);
    step := FinishPass(blob, offset, budget);
  }

  /** The same first part with the missing check added before the length
      read of smartphoneType: every read is inside the blob. */
  method Pass(blob: seq<byte>, start: nat, ghost budget: nat) returns (step: RecordStep)
    requires budget > 0
    ensures step.Stop? ==> WalkFrom(blob, start, budget).devices == []
    ensures step.Record? ==> WalkFrom(blob, start, budget) == Continue(blob, step, budget)
  {
    var offset := start;
    if offset + 2 > |blob| {
      return Stop(false);
    }
    var strLen := ReadBe16(blob, offset);
    offset := offset + 2 + strLen;
    assert WalkFrom(blob, start, budget) == AfterId(blob, offset, budget);
    if offset + 2 > |blob| {
      return Stop(false);
    }
    ghost var idEnd := offset;
    strLen := ReadBe16(blob, offset);
    offset := offset + 2 + strLen;
    assert AfterId(blob, idEnd, budget) == AfterType(blob, offset, budget);
    if offset + 1 > |blob| {
      return Stop(false);
    }
    step := FinishPass(blob, offset, budget);
  }

  /** The rest of one pass, from the has-name flag at `typeEnd`. */
  method FinishPass(blob: seq<byte>, typeEnd: nat, ghost budget: nat) returns (step: RecordStep)
    requires typeEnd < |blob| && budget > 0
    ensures AfterType(blob, typeEnd, budget) == Continue(blob, step, budget)
  {
    if blob[typeEnd] != 0 {
      var found, name, offset := ReadName(blob, typeEnd + 1, budget);
      if !found {
        return Stop(false);
      }
      step := RecordDevice(blob, name, offset, budget);
    } else {
      step := RecordDevice(blob, Unknown, typeEnd + 1, budget);
    }
  }

  /** The name of a named device: its length, then at most 255 of its
      bytes copied out; `found` is false when the name runs past the blob. */
  method ReadName(blob: seq<byte>, nameStart: nat, ghost budget: nat)
    returns (found: bool, name: seq<byte>, offset: nat)
    requires budget > 0
    ensures found ==> offset <= |blob| && |name| <= MaxNameBytes
    ensures found ==> NameField(blob, nameStart, budget) == AfterName(blob, name, offset, budget)
    ensures !found ==> NameField(blob, nameStart, budget) == Walk([], false)
  {
    name, offset := [], nameStart;
    if offset + 2 > |blob| {
      return false, name, offset;
    }
    var strLen := ReadBe16(blob, offset);
    offset := offset + 2;
    if offset + strLen > |blob| {
      return false, name, offset;
    }
    name := blob[offset..offset + Min(strLen, MaxNameBytes)];
    offset := offset + strLen;
    found := true;
  }

  /** From userAcceptState at `position`, which is recorded: the two flags,
      lastMode and lastConnectionType, whose end is not checked against
      the blob. */
  method RecordDevice(blob: seq<byte>, name: seq<byte>, position: nat, ghost budget: nat)
    returns (step: RecordStep)
    requires position <= |blob| && |name| <= MaxNameBytes && budget > 0
    ensures AfterName(blob, name, position, budget) == Continue(blob, step, budget)
  {
    var offset := position;
    if offset + 2 > |blob| {
      return Stop(false);
    }
    var strLen := ReadBe16(blob, offset);
    offset := offset + 2 + strLen;
    if offset > |blob| {
      return Stop(false);
    }
    offset := offset + 1 + 1 + 4;
    if offset + 2 > |blob| {
      return Stop(false);
    }
    strLen := ReadBe16(blob, offset);
    offset := offset + 2 + strLen;
    return Record(Device(name, position), offset);
  }

  /** One recorded device moves the walk on to the next record. */
  lemma Advance(blob: seq<byte>, devices: seq<Device>, offset: nat, n: nat, step: RecordStep)
    requires n > 0 && step.Record? && WalkFrom(blob, offset, n) == Continue(blob, step, n)
    ensures devices + WalkFrom(blob, offset, n).devices
         == (devices + [step.device]) + WalkFrom(blob, step.next, n - 1).devices
    ensures WalkFrom(blob, offset, n).overRead == WalkFrom(blob, step.next, n - 1).overRead
  {
  }

  /** parse_device_names exactly as written: the devices it records and
      whether some pass read past the end of the blob, whatever the bytes
      read there are. */
  method ParseDeviceNamesAsWritten(blob: seq<byte>, maxDevices: int, stray: nat)
    returns (devices: seq<Device>, overRead: bool)
    ensures devices == DeviceWalk(blob, maxDevices).devices
    ensures overRead == DeviceWalk(blob, maxDevices).overRead
  {
    devices, overRead := [], false;
    if |blob| < HeaderLen {
      return;
    }
    var deviceCount := ReadBe32(blob, CountOffset);
    ghost var budget := Budget(deviceCount, maxDevices);
    ghost var all := WalkFrom(blob, HeaderLen, budget);
    var offset: nat := HeaderLen;
    var i: nat := 0;
    while i < deviceCount && |devices| < maxDevices
      invariant i == |devices| <= budget
      invariant all.devices == devices + WalkFrom(blob, offset, budget - i).devices
      invariant all.overRead == WalkFrom(blob, offset, budget - i).overRead
      decreases budget - i
    {
      var step := PassAsWritten(blob, offset, stray, budget - i);
      if step.Stop? {
        assert WalkFrom(blob, offset, budget - i) == Walk([], step.overRead);
        overRead := step.overRead;
        break;
      }
      Advance(blob, devices, offset, budget - i, step);
      devices := devices + [step.device];
      offset := step.next;
      i := i + 1;
    }
  }

  /** parse_device_names with the missing check added: the same devices,
      every read inside the blob. */
  method ParseDeviceNames(blob: seq<byte>, maxDevices: int) returns (devices: seq<Device>)
    ensures devices == DeviceWalk(blob, maxDevices).devices
  {
    devices := [];
    if |blob| < HeaderLen {
      return;
    }
    var deviceCount := ReadBe32(blob, CountOffset);
    ghost var budget := Budget(deviceCount, maxDevices);
    ghost var all := WalkFrom(blob, HeaderLen, budget).devices;
    var offset: nat := HeaderLen;
    var i: nat := 0;
    while i < deviceCount && |devices| < maxDevices
      invariant i == |devices| <= budget
      invariant all == devices + WalkFrom(blob, offset, budget - i).devices
      decreases budget - i
    {
      var step := Pass(blob, offset, budget - i);
      if step.Stop? {
        break;
      }
      Advance(blob, devices, offset, budget - i, step);
      devices := devices + [step.device];
      offset := step.next;
      i := i + 1;
    }
  }

  /** A blob on which the walker reads past its end: a header announcing
      one device, then an empty deviceUniqueId and nothing else. The
      length of smartphoneType is read from bytes 18 and 19 of an
      18-byte blob. */
  lemma OverReadWitness()
    ensures var blob: seq<byte> := [0, 0, 0, 0, 0, 0, 0, 0, 0, 0, 0, 3, 0, 0, 0, 1, 0, 0];
            DeviceWalk(blob, 32) == Walk([], true)
  {
    var blob: seq<byte> := [0, 0, 0, 0, 0, 0, 0, 0, 0, 0, 0, 3, 0, 0, 0, 1, 0, 0];
    assert ReadBe32(blob, CountOffset) == 1;
    assert ReadBe16(blob, 16) == 0;
    assert WalkFrom(blob, 16, 1) == AfterId(blob, 18, 1);
  }
}

/**
 * The BLE central's client-side state: choosing the target device from the
 * scan results, resolving characteristic handles (enabling notifications and
 * reading the Body Sensor Location on the way), and folding notifications into
 * the table of latest heart-rate and button values.
 *
 * The radio is not modelled: scan results, the services and characteristics a
 * connected device enumerates, and whether each transport call raises are
 * given as inputs.
 */
module BleCentral {
  import opened Wrappers
  import opened BigEndian

  // Slots of the handle table (and, for the first two, of the value table).
  const HeartRateIndex: nat := 0
  const ButtonStateIndex: nat := 1
  const BodyLocationIndex: nat := 2

  /** Characteristic UUIDs by slot: Heart Rate Measurement, button state, Body Sensor Location. */
  const ChUuids: seq<int> := [0x2A37, 0xA001, 0x2A38]
  const BodyLocationUuid: int := 0x2A38

  const HeartRateServiceUuid: int := 0x180D
  const ButtonServiceUuid: int := 0xA000
  /** The services resolved, in this order. */
  const ServiceList: seq<int> := [HeartRateServiceUuid, ButtonServiceUuid]

  /** The "no handle / no value yet" sentinel. */
  const Unresolved: int := -1

  /** Body Sensor Location names by value (section 3.2 of the Heart Rate Service 1.0 specification). */
  const BodyLocations: seq<string> := ["OTHER", "CHEST", "WRIST", "FINGER", "HAND", "EAR_LOBE", "FOOT"]

  /** The advertised name of the peripheral to connect to. */
  const TargetName: string := "IOT32"

  /** Client Characteristic Configuration value 0x0001, little-endian: notifications enabled. */
  const EnableNotifications: seq<byte> := [0x01, 0x00]

  type HandleTable = h: seq<int> | |h| == 3 witness [Unresolved, Unresolved, Unresolved]
  type SlotValues = d: seq<int> | |d| == 2 witness [Unresolved, Unresolved]

  // ---------------------------------------------------------------------------
  // Body Sensor Location lookup
  // ---------------------------------------------------------------------------

  /** `BODY_LOCATION[value]`; None where the list index raises. */
  function BodyLocationName(value: nat): (r: Option<string>)
    ensures r.Some? <==> value < 7
  {
    if value < |BodyLocations| then Some(BodyLocations[value]) else None
  }

  /** The seven values name seven different locations, in the standard's order. */
  lemma BodyLocationNamesInOrder()
    ensures BodyLocationName(0) == Some("OTHER") && BodyLocationName(1) == Some("CHEST")
    ensures BodyLocationName(2) == Some("WRIST") && BodyLocationName(3) == Some("FINGER")
    ensures BodyLocationName(4) == Some("HAND") && BodyLocationName(5) == Some("EAR_LOBE")
    ensures BodyLocationName(6) == Some("FOOT")
    ensures forall i: nat, j: nat :: i < j < 7 ==> BodyLocationName(i) != BodyLocationName(j)
  {
  }

  /** A one-byte read of 0x02 is "WRIST"; the finger location 0x03 read as two bytes is "FINGER". */
  lemma BodyLocationDecodes()
    ensures BodyLocationName(ToNat([0x02])) == Some("WRIST")
    ensures BodyLocationName(ToNat([0x00, 0x03])) == Some("FINGER")
    ensures BodyLocationName(ToNat([0x01, 0x00])) == None
  {
  }

  // ---------------------------------------------------------------------------
  // Device selection after a scan
  // ---------------------------------------------------------------------------

  /** One `(adtype, desc, value)` entry of a device's scan data. */
  datatype AdField = AdField(adType: int, desc: string, value: string)

  /** One scanned device: its address, address type, signal strength and scan data. */
  datatype ScanEntry = ScanEntry(addr: string, addrType: string, rssi: int, scanData: seq<AdField>)

  /** Some scan-data value equals name exactly. */
  predicate Advertises(fields: seq<AdField>, name: string)
  {
    exists k :: 0 <= k < |fields| && fields[k].value == name
  }

  /** The index the selection loop leaves behind: the last device advertising TargetName, else 0. */
  function SelectedIndex(devices: seq<ScanEntry>): nat
  {
    if |devices| == 0 then 0
    else if Advertises(devices[|devices| - 1].scanData, TargetName) then |devices| - 1
    else SelectedIndex(devices[..|devices| - 1])
  }

  /** The selected index is the largest one that advertises TargetName, or 0 when none does. */
  lemma {:induction false} SelectedIndexIsLastMatch(devices: seq<ScanEntry>)
    ensures |devices| > 0 ==> SelectedIndex(devices) < |devices|
    ensures (exists j :: 0 <= j < |devices| && Advertises(devices[j].scanData, TargetName)) ==>
              Advertises(devices[SelectedIndex(devices)].scanData, TargetName)
    ensures forall j :: SelectedIndex(devices) < j < |devices| ==> !Advertises(devices[j].scanData, TargetName)
    ensures (forall j :: 0 <= j < |devices| ==> !Advertises(devices[j].scanData, TargetName)) ==>
              SelectedIndex(devices) == 0
    decreases |devices|
  {
    if |devices| > 0 {
      var init := devices[..|devices| - 1];
      SelectedIndexIsLastMatch(init);
      assert forall j :: 0 <= j < |init| ==> init[j] == devices[j];
    }
  }

  /** Scenario: among devices advertising IOT31, IOT32 and IOT33, the second one is chosen. */
  lemma SelectsTheAdvertisingDevice(a: string, b: string, c: string)
    ensures SelectedIndex([ScanEntry(a, "random", -60, [AdField(9, "Complete Local Name", "IOT31")]),
                           ScanEntry(b, "random", -60, [AdField(9, "Complete Local Name", "IOT32")]),
                           ScanEntry(c, "random", -60, [AdField(9, "Complete Local Name", "IOT33")])]) == 1
  {
    var d0 := ScanEntry(a, "random", -60, [AdField(9, "Complete Local Name", "IOT31")]);
    var d1 := ScanEntry(b, "random", -60, [AdField(9, "Complete Local Name", "IOT32")]);
    var d2 := ScanEntry(c, "random", -60, [AdField(9, "Complete Local Name", "IOT33")]);
    assert !Advertises(d2.scanData, TargetName);
    assert [d0, d1, d2][..2] == [d0, d1];
    assert d1.scanData[0].value == TargetName;
  }

  /**
   * The selection loop over the scan results: collect every address and
   * remember the index of the last device whose scan data holds TargetName.
   * `target` is `addr[deviceIdx]`, which raises (None) when the scan found no device.
   */
  method SelectDevice(devices: seq<ScanEntry>) returns (addr: seq<string>, deviceIdx: nat, target: Option<string>)
    ensures |addr| == |devices| && forall i :: 0 <= i < |devices| ==> addr[i] == devices[i].addr
    ensures deviceIdx == SelectedIndex(devices)
    ensures target.Some? <==> |devices| > 0
    ensures target.Some? ==> deviceIdx < |devices| && target.value == devices[deviceIdx].addr
  {
    var n := 0;
    addr := [];
    deviceIdx := 0;
    while n < |devices|
      invariant 0 <= n <= |devices|
      invariant |addr| == n && forall i :: 0 <= i < n ==> addr[i] == devices[i].addr
      invariant deviceIdx == SelectedIndex(devices[..n])
    {
      var dev := devices[n];
      addr := addr + [dev.addr];
      ghost var before := deviceIdx;
      var k := 0;
      while k < |dev.scanData|
        invariant 0 <= k <= |dev.scanData|
        invariant deviceIdx == if Advertises(dev.scanData[..k], TargetName) then n else before
      {
        if dev.scanData[k].value == TargetName {
          deviceIdx := n;
        }
        assert forall j :: 0 <= j < k ==> dev.scanData[..k + 1][j] == dev.scanData[..k][j];
        assert dev.scanData[..k + 1][k] == dev.scanData[k];
        k := k + 1;
      }
      assert dev.scanData[..k] == dev.scanData;
      assert devices[..n + 1][..n] == devices[..n];
      n := n + 1;
    }
    assert devices[..n] == devices;
    SelectedIndexIsLastMatch(devices);
    target := if deviceIdx < |addr| then Some(addr[deviceIdx]) else None;
  }

  // ---------------------------------------------------------------------------
  // Notification decoding
  // ---------------------------------------------------------------------------

  /** The value table after a notification: each slot whose handle is cHandle takes the decoded payload. */
  function Notified(data: SlotValues, handles: HandleTable, cHandle: int, payload: seq<byte>): SlotValues
  {
    var v := ToNat(payload) as int;
    [if handles[HeartRateIndex] == cHandle then v else data[HeartRateIndex],
     if handles[ButtonStateIndex] == cHandle then v else data[ButtonStateIndex]]
  }

  /** Among the first n slots, one is matched by cHandle and holds something other than v. */
  predicate ChangesBelow(data: SlotValues, handles: HandleTable, cHandle: int, v: int, n: nat)
  {
    exists i :: 0 <= i < n && i < 2 && handles[i] == cHandle && data[i] != v
  }

  /** The notification changes the value table (and so raises the change flag). */
  predicate Changes(data: SlotValues, handles: HandleTable, cHandle: int, payload: seq<byte>)
  {
    ChangesBelow(data, handles, cHandle, ToNat(payload) as int, 2)
  }

  /** Only a slot whose handle equals cHandle can change; a matched slot holds the decoded, non-negative value. */
  lemma NotifiedTouchesOnlyMatchingSlots(data: SlotValues, handles: HandleTable, cHandle: int, payload: seq<byte>)
    ensures forall i :: 0 <= i < 2 && handles[i] != cHandle ==> Notified(data, handles, cHandle, payload)[i] == data[i]
    ensures forall i :: 0 <= i < 2 && handles[i] == cHandle ==>
              Notified(data, handles, cHandle, payload)[i] == ToNat(payload) >= 0
    ensures Notified(data, handles, cHandle, payload) != data <==> Changes(data, handles, cHandle, payload)
  {
  }

  /** A slot still holding the sentinel handle never matches a real (non-negative) handle. */
  lemma NotifiedKeepsUnresolvedSlots(data: SlotValues, handles: HandleTable, cHandle: int, payload: seq<byte>)
    requires cHandle >= 0
    ensures forall i :: 0 <= i < 2 && handles[i] == Unresolved ==> Notified(data, handles, cHandle, payload)[i] == data[i]
  {
  }

  /** Re-sending the same bytes on the same handle changes nothing and raises no flag. */
  lemma NotifiedTwiceIsNotifiedOnce(data: SlotValues, handles: HandleTable, cHandle: int, payload: seq<byte>)
    ensures var once := Notified(data, handles, cHandle, payload);
      Notified(once, handles, cHandle, payload) == once && !Changes(once, handles, cHandle, payload)
  {
  }

  /** The heart-rate payload is read whole: a zero flags byte followed by an 8-bit bpm decodes to the bpm. */
  lemma HeartRateMeasurementWithZeroFlags(data: SlotValues, handles: HandleTable, cHandle: int, bpm: byte)
    requires handles[HeartRateIndex] == cHandle
    ensures Notified(data, handles, cHandle, [0x00, bpm])[HeartRateIndex] == bpm as int
  {
    assert [0x00, bpm] == [0x00 as byte] + [bpm];
    ToNatAppend([0x00], bpm);
    ToNatAppend([], 0x00);
    assert [] + [0x00 as byte] == [0x00];
  }

  /** A non-zero flags byte is not skipped: it lands in the high byte of the stored value. */
  lemma HeartRateMeasurementWithFlags(data: SlotValues, handles: HandleTable, cHandle: int, flags: byte, bpm: byte)
    requires handles[HeartRateIndex] == cHandle
    ensures Notified(data, handles, cHandle, [flags, bpm])[HeartRateIndex] == flags as int * 256 + bpm as int
  {
    assert [flags, bpm] == [flags] + [bpm];
    ToNatAppend([flags], bpm);
    ToNatAppend([], flags);
    assert [] + [flags] == [flags];
  }

  // ---------------------------------------------------------------------------
  // Handle resolution
  // ---------------------------------------------------------------------------

  /**
   * What the transport reports about one characteristic of a service: its
   * UUID and value handle, whether the descriptor write and the descriptor
   * listing return normally, and what `read()` returns (None where it raises).
   */
  datatype Characteristic = Characteristic(
    uuid: int,
    valHandle: nat,
    writeAccepted: bool,
    descriptorsListed: bool,
    readResult: Option<seq<byte>>)

  /** One `writeCharacteristic(handle, value)` call. */
  datatype CccdWrite = CccdWrite(handle: int, value: seq<byte>)

  /** The notification enable written to the descriptor after ch's value handle. */
  function EnableWrite(ch: Characteristic): CccdWrite
  {
    CccdWrite(ch.valHandle + 1, EnableNotifications)
  }

  /**
   * The state of the resolution loop: the handle table, the descriptor writes
   * issued so far, the body locations looked up, and whether an exception
   * ended the loop (after which the device is disconnected).
   */
  datatype Resolution = Resolution(handles: HandleTable, writes: seq<CccdWrite>, locations: seq<string>, aborted: bool)

  /** The loop body for one characteristic. */
  function CharStep(r: Resolution, ch: Characteristic): Resolution
  {
    var written := r.(writes := r.writes + [EnableWrite(ch)]);
    if !ch.writeAccepted || !ch.descriptorsListed then written.(aborted := true)
    else
      var heartRate :=
        if ch.uuid == ChUuids[HeartRateIndex] then written.(handles := written.handles[HeartRateIndex := ch.valHandle])
        else written;
      var located :=
        if ch.uuid != BodyLocationUuid then heartRate
        else match ch.readResult
          case None => heartRate.(aborted := true)
          case Some(bytes) =>
            match BodyLocationName(ToNat(bytes))
            case None => heartRate.(aborted := true)
            case Some(name) => heartRate.(locations := heartRate.locations + [name]);
      if !located.aborted && ch.uuid == ChUuids[ButtonStateIndex] then
        located.(handles := located.handles[ButtonStateIndex := ch.valHandle])
      else located
  }

  /** The characteristic loop: CharStep for each in turn, until one aborts. */
  function RunChars(r: Resolution, chs: seq<Characteristic>): Resolution
  {
    if |chs| == 0 then r
    else
      var p := RunChars(r, chs[..|chs| - 1]);
      if p.aborted then p else CharStep(p, chs[|chs| - 1])
  }

  /** The service loop: a service missing from gatt raises; otherwise its characteristics are run. */
  function RunServices(r: Resolution, gatt: map<int, seq<Characteristic>>, services: seq<int>): Resolution
  {
    if |services| == 0 then r
    else
      var p := RunServices(r, gatt, services[..|services| - 1]);
      var svc := services[|services| - 1];
      if p.aborted then p
      else if svc !in gatt then p.(aborted := true)
      else RunChars(p, gatt[svc])
  }

  /** The whole resolution from a handle table, before any write. */
  function Resolved(handles: HandleTable, gatt: map<int, seq<Characteristic>>): Resolution
  {
    RunServices(Resolution(handles, [], [], false), gatt, ServiceList)
  }

  /** Every service in the list is found. */
  predicate AllFound(gatt: map<int, seq<Characteristic>>, services: seq<int>)
  {
    forall i :: 0 <= i < |services| ==> services[i] in gatt
  }

  /** The characteristics enumerated, service by service, up to the first service that is missing. */
  function Enumerated(gatt: map<int, seq<Characteristic>>, services: seq<int>): seq<Characteristic>
  {
    if |services| == 0 then []
    else
      var init := services[..|services| - 1];
      var svc := services[|services| - 1];
      if AllFound(gatt, init) && svc in gatt then Enumerated(gatt, init) + gatt[svc]
      else Enumerated(gatt, init)
  }

  /** The characteristic goes through its loop body without raising. */
  predicate WellBehaved(ch: Characteristic)
  {
    ch.writeAccepted && ch.descriptorsListed &&
    (ch.uuid == BodyLocationUuid ==> ch.readResult.Some? && ToNat(ch.readResult.value) < 7)
  }

  /** The valHandle of the last characteristic with this uuid, or dflt when there is none. */
  function LastHandle(chs: seq<Characteristic>, uuid: int, dflt: int): int
  {
    if |chs| == 0 then dflt
    else if chs[|chs| - 1].uuid == uuid then chs[|chs| - 1].valHandle
    else LastHandle(chs[..|chs| - 1], uuid, dflt)
  }

  /** The descriptor writes for a run of characteristics, in order. */
  function EnableWrites(chs: seq<Characteristic>): seq<CccdWrite>
  {
    if |chs| == 0 then [] else EnableWrites(chs[..|chs| - 1]) + [EnableWrite(chs[|chs| - 1])]
  }

  /** Each characteristic's descriptor write comes first: it is issued even when the write itself raises. */
  lemma CharStepWritesFirst(r: Resolution, ch: Characteristic)
    ensures CharStep(r, ch).writes == r.writes + [EnableWrite(ch)]
    ensures !ch.writeAccepted ==> CharStep(r, ch) == r.(writes := r.writes + [EnableWrite(ch)], aborted := true)
    ensures CharStep(r, ch).handles[BodyLocationIndex] == r.handles[BodyLocationIndex]
  {
  }

  /** Once an exception is raised, later characteristics do nothing. */
  lemma {:induction false} RunCharsFromAborted(r: Resolution, chs: seq<Characteristic>)
    requires r.aborted
    ensures RunChars(r, chs) == r
    decreases |chs|
  {
    if |chs| > 0 {
      RunCharsFromAborted(r, chs[..|chs| - 1]);
    }
  }

  /** Running a + b is running a, then b from where a stopped. */
  lemma {:induction false} RunCharsAppend(r: Resolution, a: seq<Characteristic>, b: seq<Characteristic>)
    ensures RunChars(r, a + b) == RunChars(RunChars(r, a), b)
    decreases |b|
  {
    if |b| == 0 {
      assert a + b == a;
    } else {
      assert (a + b)[..|a + b| - 1] == a + b[..|b| - 1];
      RunCharsAppend(r, a, b[..|b| - 1]);
    }
  }

  /** A prefix that ends in an exception decides the whole run. */
  lemma RunCharsAbortedPrefix(r: Resolution, chs: seq<Characteristic>, c: nat)
    requires c <= |chs| && RunChars(r, chs[..c]).aborted
    ensures RunChars(r, chs) == RunChars(r, chs[..c])
  {
    assert chs == chs[..c] + chs[c..];
    RunCharsAppend(r, chs[..c], chs[c..]);
    RunCharsFromAborted(RunChars(r, chs[..c]), chs[c..]);
  }

  /** Once an exception is raised, later services do nothing. */
  lemma {:induction false} RunServicesAbortedPrefix(r: Resolution, gatt: map<int, seq<Characteristic>>, services: seq<int>, s: nat)
    requires s <= |services| && RunServices(r, gatt, services[..s]).aborted
    ensures RunServices(r, gatt, services) == RunServices(r, gatt, services[..s])
    decreases |services|
  {
    if s < |services| {
      var init := services[..|services| - 1];
      assert init[..s] == services[..s];
      RunServicesAbortedPrefix(r, gatt, init, s);
      assert services[..|services|] == services;
    } else {
      assert services[..s] == services;
    }
  }

  /**
   * The nested service/characteristic loop is one characteristic loop over
   * everything enumerated, followed by an exception if some service is missing.
   */
  lemma {:induction false} ResolutionIsCharacteristicLoop(r: Resolution, gatt: map<int, seq<Characteristic>>, services: seq<int>)
    requires !r.aborted
    ensures var p := RunChars(r, Enumerated(gatt, services));
      RunServices(r, gatt, services) == if AllFound(gatt, services) then p else p.(aborted := true)
    decreases |services|
  {
    if |services| > 0 {
      var init := services[..|services| - 1];
      var svc := services[|services| - 1];
      ResolutionIsCharacteristicLoop(r, gatt, init);
      var p := RunChars(r, Enumerated(gatt, init));
      assert AllFound(gatt, services) <==> AllFound(gatt, init) && svc in gatt by {
        if AllFound(gatt, init) && svc in gatt {
          forall i | 0 <= i < |services| ensures services[i] in gatt {
            if i < |init| { assert services[i] == init[i]; }
          }
        }
        if AllFound(gatt, services) {
          forall i | 0 <= i < |init| ensures init[i] in gatt {
            assert init[i] == services[i];
          }
        }
      }
      if AllFound(gatt, init) && svc in gatt {
        RunCharsAppend(r, Enumerated(gatt, init), gatt[svc]);
        if p.aborted {
          RunCharsFromAborted(p, gatt[svc]);
        }
      }
    }
  }

  /** A run that does not raise issues one descriptor write per characteristic, in order; one that raises stops early. */
  lemma {:induction false} RunCharsWrites(r: Resolution, chs: seq<Characteristic>)
    requires !r.aborted
    ensures var q := RunChars(r, chs);
      |r.writes| <= |q.writes| <= |r.writes| + |chs| &&
      q.writes == r.writes + EnableWrites(chs[..|q.writes| - |r.writes|]) &&
      (!q.aborted ==> |q.writes| == |r.writes| + |chs|)
    decreases |chs|
  {
    if |chs| > 0 {
      var init := chs[..|chs| - 1];
      RunCharsWrites(r, init);
      var p := RunChars(r, init);
      assert init[..|p.writes| - |r.writes|] == chs[..|p.writes| - |r.writes|];
      if !p.aborted {
        assert init == chs[..|chs| - 1];
        assert chs[..|chs|] == chs;
      }
    }
  }

  /** Without exceptions, the heart-rate and button slots hold the last matching handle (last write wins); slot 2 is untouched. */
  lemma {:induction false} RunCharsWellBehaved(r: Resolution, chs: seq<Characteristic>)
    requires !r.aborted
    requires forall i :: 0 <= i < |chs| ==> WellBehaved(chs[i])
    ensures var q := RunChars(r, chs);
      !q.aborted &&
      q.handles == [LastHandle(chs, ChUuids[HeartRateIndex], r.handles[HeartRateIndex]),
                    LastHandle(chs, ChUuids[ButtonStateIndex], r.handles[ButtonStateIndex]),
                    r.handles[BodyLocationIndex]] &&
      q.writes == r.writes + EnableWrites(chs)
    decreases |chs|
  {
    if |chs| > 0 {
      RunCharsWellBehaved(r, chs[..|chs| - 1]);
      var ch := chs[|chs| - 1];
      assert WellBehaved(ch);
    }
  }

  /** Each of the two notified slots keeps its old handle or holds the handle of a characteristic with its UUID; slot 2 never changes. */
  lemma {:induction false} RunCharsHandleProvenance(r: Resolution, chs: seq<Characteristic>)
    ensures var q := RunChars(r, chs);
      q.handles[BodyLocationIndex] == r.handles[BodyLocationIndex] &&
      forall s :: 0 <= s < 2 ==>
        q.handles[s] == r.handles[s] ||
        exists j :: 0 <= j < |chs| && chs[j].uuid == ChUuids[s] && chs[j].valHandle == q.handles[s]
    decreases |chs|
  {
    if |chs| > 0 {
      var init := chs[..|chs| - 1];
      RunCharsHandleProvenance(r, init);
      var p := RunChars(r, init);
      var q := RunChars(r, chs);
      forall s | 0 <= s < 2
        ensures q.handles[s] == r.handles[s] ||
          exists j :: 0 <= j < |chs| && chs[j].uuid == ChUuids[s] && chs[j].valHandle == q.handles[s]
      {
        if q.handles[s] != r.handles[s] {
          if q.handles[s] == p.handles[s] {
            var j :| 0 <= j < |init| && init[j].uuid == ChUuids[s] && init[j].valHandle == p.handles[s];
            assert chs[j] == init[j];
          } else {
            assert chs[|chs| - 1].uuid == ChUuids[s];
          }
        }
      }
    }
  }

  /**
   * A Body Sensor Location read that raises, or whose value is 7 or more, ends
   * the whole loop: the failing characteristic's descriptor write was issued,
   * everything recorded before it is kept, and nothing after it runs.
   */
  lemma BodyLocationFailureEndsResolution(r: Resolution, pre: seq<Characteristic>, ch: Characteristic, post: seq<Characteristic>)
    requires !r.aborted
    requires forall i :: 0 <= i < |pre| ==> WellBehaved(pre[i])
    requires ch.uuid == BodyLocationUuid && ch.writeAccepted && ch.descriptorsListed
    requires ch.readResult.None? || ToNat(ch.readResult.value) >= 7
    ensures var p := RunChars(r, pre);
      RunChars(r, pre + [ch] + post) == p.(writes := p.writes + [EnableWrite(ch)], aborted := true)
  {
    RunCharsWellBehaved(r, pre);
    var p := RunChars(r, pre);
    assert (pre + [ch])[..|pre|] == pre;
    RunCharsAppend(r, pre + [ch], post);
    RunCharsFromAborted(RunChars(r, pre + [ch]), post);
  }

  /**
   * With both services present and no exception, resolution enables
   * notifications on every enumerated characteristic and ends with the last
   * 0x2A37 handle in slot 0 and the last 0xA001 handle in slot 1.
   */
  lemma ResolvedWithoutFailure(handles: HandleTable, gatt: map<int, seq<Characteristic>>)
    requires HeartRateServiceUuid in gatt && ButtonServiceUuid in gatt
    requires var chs := gatt[HeartRateServiceUuid] + gatt[ButtonServiceUuid];
      forall i :: 0 <= i < |chs| ==> WellBehaved(chs[i])
    ensures var chs := gatt[HeartRateServiceUuid] + gatt[ButtonServiceUuid];
      var q := Resolved(handles, gatt);
      !q.aborted &&
      q.handles == [LastHandle(chs, ChUuids[HeartRateIndex], handles[HeartRateIndex]),
                    LastHandle(chs, ChUuids[ButtonStateIndex], handles[ButtonStateIndex]),
                    handles[BodyLocationIndex]] &&
      q.writes == EnableWrites(chs)
  {
    var r := Resolution(handles, [], [], false);
    ResolutionIsCharacteristicLoop(r, gatt, ServiceList);
    assert ServiceList[..1] == [HeartRateServiceUuid];
    assert [HeartRateServiceUuid][..0] == [];
    assert AllFound(gatt, ServiceList);
    assert AllFound(gatt, [HeartRateServiceUuid]);
    assert Enumerated(gatt, [HeartRateServiceUuid]) == [] + gatt[HeartRateServiceUuid];
    assert Enumerated(gatt, ServiceList) == gatt[HeartRateServiceUuid] + gatt[ButtonServiceUuid];
    RunCharsWellBehaved(r, gatt[HeartRateServiceUuid] + gatt[ButtonServiceUuid]);
  }

  /** A slot whose UUID is never enumerated keeps the sentinel; the body-location slot always does. */
  lemma ResolvedKeepsSentinels(gatt: map<int, seq<Characteristic>>, s: nat)
    requires s < 2
    requires forall i :: 0 <= i < |Enumerated(gatt, ServiceList)| ==> Enumerated(gatt, ServiceList)[i].uuid != ChUuids[s]
    ensures Resolved([Unresolved, Unresolved, Unresolved], gatt).handles[s] == Unresolved
    ensures Resolved([Unresolved, Unresolved, Unresolved], gatt).handles[BodyLocationIndex] == Unresolved
  {
    var r := Resolution([Unresolved, Unresolved, Unresolved], [], [], false);
    ResolutionIsCharacteristicLoop(r, gatt, ServiceList);
    RunCharsHandleProvenance(r, Enumerated(gatt, ServiceList));
  }

  // ---------------------------------------------------------------------------
  // The central's mutable state
  // ---------------------------------------------------------------------------

  /**
   * The module-level state of the central script: `data` (latest heart-rate and
   * button values), `chHandles` (resolved handles by slot) and `flagDataChange`.
   */
  class CentralState {
    const data: array<int>
    const chHandles: array<int>
    var flagDataChange: bool

    ghost predicate Valid()
    {
      data.Length == 2 && chHandles.Length == 3 && data != chHandles
    }

    /** The initial module state: every slot unresolved, the change flag raised. */
    constructor ()
      ensures Valid() && fresh(data) && fresh(chHandles)
      ensures data[..] == [Unresolved, Unresolved]
      ensures chHandles[..] == [Unresolved, Unresolved, Unresolved]
      ensures flagDataChange
    {
      data := new int[2](_ => Unresolved);
      chHandles := new int[3](_ => Unresolved);
      flagDataChange := true;
    }

    /**
     * `ScanDelegate.handleNotification`: update each notified slot whose
     * handle is cHandle and whose value differs from the decoded payload.
     * `reported` is whether the flag was up afterwards, i.e. whether the values
     * were printed; the flag is always lowered on return.
     */
    method HandleNotification(cHandle: int, payload: seq<byte>) returns (reported: bool)
      requires Valid()
      modifies data, this`flagDataChange
      ensures Valid()
      ensures data[..] == Notified(old(data[..]), chHandles[..], cHandle, payload)
      ensures reported == (old(flagDataChange) || Changes(old(data[..]), chHandles[..], cHandle, payload))
      ensures !flagDataChange
    {
      ghost var before: SlotValues := data[..];
      ghost var handles: HandleTable := chHandles[..];
      ghost var after := Notified(before, handles, cHandle, payload);
      var idx := 0;
      while idx < 2
        invariant 0 <= idx <= 2
        invariant forall i :: 0 <= i < idx ==> data[i] == after[i]
        invariant forall i :: idx <= i < 2 ==> data[i] == before[i]
        invariant flagDataChange == (old(flagDataChange) || ChangesBelow(before, handles, cHandle, ToNat(payload) as int, idx))
      {
        var newData := ToNat(payload) as int;
        if cHandle == chHandles[idx] && data[idx] != newData {
          flagDataChange := true;
          data[idx] := newData;
        }
        idx := idx + 1;
      }
      assert data[..] == after;
      reported := flagDataChange;
      if flagDataChange {
        flagDataChange := false;
      }
    }

    /**
     * The resolution loop: for each service of ServiceList and each of its
     * characteristics, write the notification enable to valHandle + 1, then
     * record the handle of 0x2A37 and 0xA001 and look up the body location
     * of 0x2A38. Any exception ends both loops and disconnects.
     */
    method Resolve(gatt: map<int, seq<Characteristic>>) returns (writes: seq<CccdWrite>, locations: seq<string>, disconnected: bool)
      requires Valid()
      modifies chHandles
      ensures Valid()
      ensures var q := Resolved(old(chHandles[..]), gatt);
        chHandles[..] == q.handles && writes == q.writes && locations == q.locations && disconnected == q.aborted
    {
      ghost var start := Resolution(chHandles[..], [], [], false);
      writes, locations, disconnected := [], [], false;
      var s := 0;
      while s < |ServiceList| && !disconnected
        invariant 0 <= s <= |ServiceList|
        invariant Resolution(chHandles[..], writes, locations, disconnected) == RunServices(start, gatt, ServiceList[..s])
      {
        var serviceUuid := ServiceList[s];
        assert ServiceList[..s + 1][..s] == ServiceList[..s];
        if serviceUuid !in gatt {
          disconnected := true;
        } else {
          var chars := gatt[serviceUuid];
          ghost var pre := Resolution(chHandles[..], writes, locations, disconnected);
          var c := 0;
          while c < |chars| && !disconnected
            invariant 0 <= c <= |chars|
            invariant Resolution(chHandles[..], writes, locations, disconnected) == RunChars(pre, chars[..c])
          {
            var ch := chars[c];
            assert chars[..c + 1][..c] == chars[..c];
            ghost var p := Resolution(chHandles[..], writes, locations, disconnected);
            writes := writes + [CccdWrite(ch.valHandle + 1, EnableNotifications)];
            if !ch.writeAccepted || !ch.descriptorsListed {
              disconnected := true;
            } else {
              if ch.uuid == ChUuids[HeartRateIndex] {
                chHandles[HeartRateIndex] := ch.valHandle;
              }
              if ch.uuid == BodyLocationUuid {
                match ch.readResult {
                  case None =>
                    disconnected := true;
                  case Some(bytes) =>
                    var name := BodyLocationName(ToNat(bytes));
                    if name.None? {
                      disconnected := true;
                    } else {
                      locations := locations + [name.value];
                    }
                }
              }
              if !disconnected && ch.uuid == ChUuids[ButtonStateIndex] {
                chHandles[ButtonStateIndex] := ch.valHandle;
              }
            }
            assert Resolution(chHandles[..], writes, locations, disconnected) == CharStep(p, ch);
            c := c + 1;
          }
          if c < |chars| {
            RunCharsAbortedPrefix(pre, chars, c);
          } else {
            assert chars[..c] == chars;
          }
        }
        s := s + 1;
      }
      if s < |ServiceList| {
        RunServicesAbortedPrefix(start, gatt, ServiceList, s);
      } else {
        assert ServiceList[..s] == ServiceList;
      }
    }
  }
}

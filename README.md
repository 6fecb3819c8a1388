# BLE heart-rate central and simulated peripheral — Dafny model

This project models the client-side state handling of a Bluetooth Low Energy
central (`central/ble_central.py`). It also models the simulated heart-rate
counter of the mbed peripheral it talks to (`peripheral/main.cpp`).

The central part has three pieces:

- **Device selection** (`BleCentral.SelectDevice`, specified by
  `BleCentral.SelectedIndex`). It walks the scan results, collects every
  address, and remembers the index of the last device whose scan data holds
  a value equal to `"IOT32"`. The index stays 0 when no device matches.
  `addr[deviceIdx]` raises when the scan found nothing; this is the `None`
  target.
- **Handle resolution** (`BleCentral.CentralState.Resolve`, specified by
  `CharStep`, `RunChars`, `RunServices` and `Resolved`). For services 0x180D
  and then 0xA000, each characteristic first gets the write `01 00` (notifications
  enabled) to handle `valHandle + 1`. Then 0x2A37 is recorded in slot 0 and
  0xA001 in slot 1. For 0x2A38 the Body Sensor Location is read, decoded
  big-endian and looked up in the 7-name table. The first exception ends both
  loops and disconnects. The exceptions come from a missing service, a failed
  write, a failed descriptor listing, a failed read, or a location value of 7
  or more.
- **Notification decoding** (`BleCentral.CentralState.HandleNotification`,
  specified by `Notified` and `Changes`). The payload is read as one unsigned
  big-endian integer (`BigEndian.ToNat`). The heart-rate slot and the button
  slot each take it when their handle equals the event's handle and their
  value differs. The change flag is raised if so, and it is always lowered
  before returning.

The transport is given as input. Scan results are `ScanEntry` values. A
connected device is a map from service UUID to its `Characteristic` records.
Each record gives the UUID, the value handle, whether the descriptor write
and the descriptor listing return normally, and what `read()` returns.

The peripheral part (`Peripheral.BleDemo`) is the `uint16_t` bpm field. It
starts at 100, and `update_sensor_value` increments it (wrapping modulo 2^16,
as C++ does) and resets 110 to 60. The model proves that the commented bound
60 ≤ bpm < 110 holds on every tick. From 100, the value after k ticks is
60 + (40 + k) mod 50.

Behaviours of the code worth knowing:

- When no device advertises `"IOT32"`, no error is raised. The index
  silently stays 0, and the central connects to the first device scanned.
- A transport exception on one characteristic is not confined to that
  characteristic. It ends the whole resolution loop and disconnects. Handles
  recorded before it are kept.
- The heart-rate notification is decoded whole, flags byte included. The
  flags byte of section 3.1 of the Heart Rate Service 1.0 specification is not
  interpreted. With a zero flags byte this gives the bpm; otherwise the flags
  land in the high byte (`HeartRateMeasurementWithFlags`).
- Slot 2 of the handle table (Body Sensor Location) is never written. The
  location is read once and only printed (`ResolvedKeepsSentinels`).

## Model

| member | source | states |
|---|---|---|
| `BigEndian.ToNatIsPositionalSum` | central/ble_central.py:28 | the decoded payload equals the sum of b[i]·256^(n-1-i) |
| `BigEndian.ToNatBounded` | central/ble_central.py:28 | an n-byte payload decodes to a value in 0 .. 256^n - 1, never negative; the empty payload gives 0 |
| `BigEndian.ToNatPrepend` | central/ble_central.py:28 | a leading byte contributes its value times 256^(number of bytes after it) |
| `BigEndian.ToNatLeadingZero` | central/ble_central.py:28 | one leading zero byte does not change the decoded value |
| `BigEndian.ToNatLeadingZeros` | central/ble_central.py:28 | any number of leading zero bytes does not change the decoded value |
| `BigEndian.ToNatAppend` | central/ble_central.py:28 | the one-step unfolding of the decoder (appending a byte multiplies the value by 256 and adds the byte), used by the two-byte heart-rate lemmas |
| `BleCentral.BodyLocationName` | central/ble_central.py:88 | the lookup succeeds exactly for values below 7; 7 or more raises |
| `BleCentral.BodyLocationNamesInOrder` | central/ble_central.py:9 | values 0..6 name OTHER, CHEST, WRIST, FINGER, HAND, EAR_LOBE, FOOT in order, all distinct |
| `BleCentral.BodyLocationDecodes` | central/ble_central.py:87-88 | the read bytes are decoded big-endian before the lookup: 0x02 is WRIST, 00 03 is FINGER, 01 00 raises |
| `BleCentral.SelectedIndexIsLastMatch` | central/ble_central.py:42-55 | the chosen index is the largest one whose scan data holds "IOT32", is 0 when none does, and is below the device count when there is a device |
| `BleCentral.SelectsTheAdvertisingDevice` | central/ble_central.py:45-52 | of devices advertising IOT31, IOT32, IOT33, index 1 is chosen |
| `BleCentral.SelectDevice` | central/ble_central.py:42-55 | the loop collects every address in order and leaves the last-match index; the target address exists exactly when a device was scanned |
| `BleCentral.NotifiedTouchesOnlyMatchingSlots` | central/ble_central.py:27-31 | only slots whose handle equals cHandle change, they take the decoded non-negative value, and the table changes exactly when the change predicate holds |
| `BleCentral.NotifiedKeepsUnresolvedSlots` | central/ble_central.py:27-31 | a slot whose handle is still -1 never matches a non-negative handle, so its value is unchanged |
| `BleCentral.NotifiedTwiceIsNotifiedOnce` | central/ble_central.py:29-31 | re-sending the same bytes on the same handle leaves the table unchanged and does not raise the flag |
| `BleCentral.HeartRateMeasurementWithZeroFlags` | central/ble_central.py:28-31 | a payload of a zero flags byte and an 8-bit bpm stores the bpm in the heart-rate slot |
| `BleCentral.HeartRateMeasurementWithFlags` | central/ble_central.py:28-31 | a payload of flags and bpm stores flags·256 + bpm: the flags byte is not skipped |
| `BleCentral.CharStepWritesFirst` | central/ble_central.py:79-91 | every characteristic first issues the write of 01 00 to valHandle + 1; if that write raises, nothing is recorded and the loop ends; slot 2 is never written |
| `BleCentral.RunCharsFromAborted` | central/ble_central.py:74-96 | after an exception no further characteristic has any effect |
| `BleCentral.RunCharsAppend` | central/ble_central.py:77-92 | processing a + b equals processing a and then b from the state reached |
| `BleCentral.RunCharsAbortedPrefix` | central/ble_central.py:77-96 | a prefix of characteristics that raises decides the result of the whole list |
| `BleCentral.RunServicesAbortedPrefix` | central/ble_central.py:75-96 | a prefix of services that raises decides the result of the whole service loop |
| `BleCentral.ResolutionIsCharacteristicLoop` | central/ble_central.py:75-77 | the nested service and characteristic loops equal one loop over the characteristics enumerated up to the first missing service, which then raises |
| `BleCentral.RunCharsWrites` | central/ble_central.py:77-79 | the writes are the enable writes of a prefix of the characteristics, in order; all of them when nothing raised |
| `BleCentral.RunCharsWellBehaved` | central/ble_central.py:82-91 | without exceptions, slot 0 ends with the last 0x2A37 handle, slot 1 with the last 0xA001 handle (last write wins), slot 2 unchanged, and every characteristic got its enable write |
| `BleCentral.RunCharsHandleProvenance` | central/ble_central.py:82-91 | each of slots 0 and 1 keeps its old handle or holds the handle of a characteristic with that slot's UUID; slot 2 never changes |
| `BleCentral.BodyLocationFailureEndsResolution` | central/ble_central.py:85-96 | a body-location read that raises or gives 7 or more ends the whole loop after its enable write, keeping everything recorded before it |
| `BleCentral.ResolvedWithoutFailure` | central/ble_central.py:74-92 | with both services present and nothing raising, resolution writes all enables and records the last 0x2A37 and 0xA001 handles |
| `BleCentral.ResolvedKeepsSentinels` | central/ble_central.py:74-91 | from the all -1 table, a slot whose UUID is never enumerated stays -1, and the body-location slot always does |
| `BleCentral.CentralState.constructor` | central/ble_central.py:12-15 | the handles and values start at -1 and the change flag starts raised |
| `BleCentral.CentralState.HandleNotification` | central/ble_central.py:25-38 | the new value table is the notified table; the values are reported exactly when the flag was up or some slot changed; the flag is down on return |
| `BleCentral.CentralState.Resolve` | central/ble_central.py:74-96 | the handle table, the writes issued, the locations looked up and the disconnect are those of the resolution specification |
| `Peripheral.NextHeartRateCountsUp` | peripheral/main.cpp:111 | from 60..108 a tick adds exactly one |
| `Peripheral.NextHeartRateWraps` | peripheral/main.cpp:111-116 | from 109 a tick gives 60, since 110 is reset at once |
| `Peripheral.NextHeartRateKeepsRange` | peripheral/main.cpp:111-116 | a tick keeps 60 ≤ bpm < 110, and in that range the uint16_t increment never overflows |
| `Peripheral.HeartRateAfterTicks` | peripheral/main.cpp:109-116 | from the initial 100, after k ticks the value is 60 + (40 + k) mod 50 |
| `Peripheral.HeartRateAlwaysInRange` | peripheral/main.cpp:113-116 | the commented bound holds after every number of ticks from the initial value |
| `Peripheral.BleDemo.constructor` | peripheral/main.cpp:24 | the bpm starts at 100, inside the range |
| `Peripheral.BleDemo.UpdateSensorValue` | peripheral/main.cpp:109-119 | the new bpm is the next tick of the old one, it is the value passed to updateHeartRate, and the range is preserved |

## Left out

- The bluepy transport (`Scanner.scan`, `Peripheral` connect, `dev.services`, `getServiceByUUID`, `getCharacteristics`, `getDescriptors`, `read`, `writeCharacteristic`, `disconnect`): modelled only as inputs and outcomes, not as behaviour.
- `getCharacteristics` raising is folded into a missing service, and `writeCharacteristic` and `getDescriptors` raising are per-characteristic flags; which exception type is raised is not modelled.
- BleCentral.CentralState.Resolve: notifications arriving during resolution are not interleaved. The delegate is installed before the resolution loop, and the transport can call `handleNotification` from inside the calls that wait for a reply (`getCharacteristics`, `writeCharacteristic`, `getDescriptors`, `read`). So `data` and `flagDataChange` can change while `chHandles` is only partly filled. The model runs resolution as one step that leaves `data` and the flag untouched; each interleaved notification would be one `HandleNotification` on the handle table as it stood at that moment.
- The notification pump (`while True: waitForNotifications(1.0)`): it is a blocking I/O loop. It is entered even after the resolution loop disconnected.
- All `print` output and `handleDiscovery` logging: side-channel only. The print decisions in `handleNotification` (whether anything is printed, and which of the two values differ from -1) follow from the `reported` result of `HandleNotification` and the value table it leaves.
- Two `ScanDelegate` objects are created, one for the scanner and one for the connection. Both update the same module-level state, which the model keeps in one `CentralState`.
- `valHandle` is a non-negative integer; the 16-bit ATT handle range is not checked. A write to an invalid `valHandle + 1` is one of the raising writes.
- Peripheral BLE setup, advertising, the event queue and its one-second timer, the button interrupts, the magnetometer (`update_magneto_data`, `BSP_MAGNETO_GetXYZ`) and the connection handlers: framework plumbing with no logic of their own.
- `peripheral/MagnetoService.h`, and the mbed `HeartRateService` and `ButtonService` classes: external library code. `updateHeartRate` is modelled as the returned value only.

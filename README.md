# Joy-Con Android plugin for Godot: a verified model of its button logic

The plugin forwards Nintendo Joy-Con button presses from Android to a Godot
game as two signals, `joycon_button_pressed(deviceId, index)` and
`joycon_button_released(deviceId, index)`. The repository holds four
revisions of it. This project models the button logic of each one in Dafny
and proves what each revision does:

- **The tracking revision**
  (`android/plugins/src/main/kotlin/fr/natnya/joycon/JoyConAndroidPlugin.kt`).
  It translates Android key codes through `BUTTON_MAP` and keeps a per-device
  set of held Godot indices, `pressedButtons`. It emits a signal per handled
  event and reads the set back in `pollJoyConButtons`. This is
  `PressTracker.JoyConPlugin` (a class with a `map<int, seq<int>>` field and
  a ghost log of emitted signals), specified by the functions `KeyDown`,
  `KeyUp` and `KeyEventStep`.
- **The raw-input revision**
  (`android/plugins/src/main/kotlin/fr/natnya/joycon/JoyConAndroidPlugin_v2.kt`).
  It reads 24-byte Linux `struct input_event` records, as defined in the
  Linux uapi header `linux/input.h` for a 64-bit target. It keeps full
  `EV_KEY` records with value 0 or 1 for nine whitelisted `BTN_*` codes and
  emits the raw code for device 0. This is module `RawInput`. It has a
  decoder that follows the Kotlin `ByteBuffer` reads bit by bit, an encoder
  that it inverts, the classification, and the read loop with its reused
  24-byte array.
- **The stateless revision** (`android/plugins/JoyConAndroidPlugin.kt`).
  Its `onMainKeyDown`/`onMainKeyUp` overrides are `KeyForwarder`. A lemma
  proves that the tracking revision emits exactly the same signals for any
  sequence of events.
- **The capability poll** shared by `android/plugins/JoyConAndroidPlugin.kt`
  and `android/src/main/kotlin/fr/natnya/joycon/JoyConAndroidPlugin.kt`.
  This `pollJoyConButtons` lists the indices of the keys a device *has*, not
  the keys it holds. It is `CapabilityPoll.PollJoyConButtons`, a loop proved
  against a filter function.

`Platform` holds the Android constants, with their published values,
together with `KeyEvent`, `Signal` and the gamepad-source test.
`ButtonMap` holds `BUTTON_MAP` as an ordered entry list, because Kotlin's
`mapOf` iterates in insertion order. A `mutableSetOf()` is a LinkedHashSet,
so each device's held set is a duplicate-free sequence in first-press
order.

What the code does, and the model follows:

- A press of an already-held button emits its signal again.
- A release always emits its signal, even for a button that is not held.
- ZL and Minus share index 6, so releasing either one clears 6 for both.

The handlers keep the code's gamepad-source test, which also lets keyboard
and D-pad sources through (see "## Findings").

## Model

| member | source | states |
|---|---|---|
| Platform.KeyboardPassesGamepadTest | android/plugins/src/main/kotlin/fr/natnya/joycon/JoyConAndroidPlugin.kt:103 | the gamepad test as written, `(source and SOURCE_GAMEPAD) != 0`, accepts SOURCE_KEYBOARD (0x101) and SOURCE_DPAD (0x201) |
| Platform.GamepadTestCorrected | android/plugins/src/main/kotlin/fr/natnya/joycon/JoyConAndroidPlugin.kt:137 | the intended test (all bits of SOURCE_GAMEPAD present) implies the written one; it holds iff bit 0x400 and the button class bit are set; it rejects keyboards and D-pads and accepts a gamepad-plus-joystick source |
| ButtonMap.Lookup | android/plugins/src/main/kotlin/fr/natnya/joycon/JoyConAndroidPlugin.kt:108 | `BUTTON_MAP[keyCode]` is null or one of the eight indices 4, 6, 16, 11, 12, 13, 14, 10 |
| ButtonMap.IndexOf | android/plugins/src/main/kotlin/fr/natnya/joycon/JoyConAndroidPlugin.kt:67-77 | the search finds the first entry with the key, and -1 exactly when no entry has it |
| ButtonMap.LookupMapped | android/plugins/src/main/kotlin/fr/natnya/joycon/JoyConAndroidPlugin.kt:67-77 | a key code is mapped iff it is one of the table's keys |
| ButtonMap.LookupEntry | android/plugins/src/main/kotlin/fr/natnya/joycon/JoyConAndroidPlugin.kt:67-77 | looking up any entry's key yields that entry's index |
| ButtonMap.ButtonMapKeysDistinct | android/plugins/JoyConAndroidPlugin.kt:23-33 | the table has nine entries with pairwise distinct keys |
| ButtonMap.ButtonMapIndices | android/src/main/kotlin/fr/natnya/joycon/JoyConAndroidPlugin.kt:23-33 | the table's values are exactly the set {4, 6, 16, 11, 12, 13, 14, 10} |
| ButtonMap.ButtonMapValues | android/plugins/JoyConAndroidPlugin.kt:23-33 | L1→4, L2→6, Z→16, D-pad up/down/left/right→11/12/13/14, THUMBL→10, SELECT→6 |
| ButtonMap.UnmappedKeys | android/plugins/src/main/kotlin/fr/natnya/joycon/JoyConAndroidPlugin.kt:108-110 | every key code other than the nine looks up to null |
| ButtonMap.OnlySharedIndex | android/plugins/src/main/kotlin/fr/natnya/joycon/JoyConAndroidPlugin.kt:69-76 | entries 1 (ZL) and 8 (Minus) are the only pair with equal indices |
| ButtonMap.SharedIndexSix | android/plugins/src/main/kotlin/fr/natnya/joycon/JoyConAndroidPlugin.kt:69-76 | two distinct keys with the same index are exactly L2 and SELECT, and the index is 6 |
| PressTracker.Add | android/plugins/src/main/kotlin/fr/natnya/joycon/JoyConAndroidPlugin.kt:111 | set insertion: membership is old ∪ {x}, no duplicates, an existing element leaves the set unchanged, a new one goes last |
| PressTracker.Remove | android/plugins/src/main/kotlin/fr/natnya/joycon/JoyConAndroidPlugin.kt:145 | set removal: membership is old minus {x}, duplicate-freedom kept, an absent element leaves the set unchanged, a present one shrinks it by one |
| PressTracker.RemoveKeepsOrder | android/plugins/src/main/kotlin/fr/natnya/joycon/JoyConAndroidPlugin.kt:145 | removing a present element from a set cuts it out where it stands: the result is the elements before it followed by the elements after it, in their order |
| PressTracker.KeyDown | android/plugins/src/main/kotlin/fr/natnya/joycon/JoyConAndroidPlugin.kt:92-124 | handled iff the event is non-null, its source passes the written test `(source and SOURCE_GAMEPAD) != 0` and the key is mapped; otherwise nothing changes and nothing is emitted; when handled, one pressed signal, the device's entry created if missing and holding the index, every other device unchanged, well-formedness kept |
| PressTracker.KeyUp | android/plugins/src/main/kotlin/fr/natnya/joycon/JoyConAndroidPlugin.kt:126-157 | same refusal cases; when handled, one released signal, no entry created, the index gone from the device's set and the rest of it kept, other devices unchanged |
| PressTracker.KeyEventStep | android/plugins/src/main/kotlin/fr/natnya/joycon/JoyConAndroidPlugin.kt:79-90 | any action other than DOWN and UP is refused with nothing changed; handled iff DOWN/UP and accepted; exactly one signal iff handled, a pressed signal for DOWN and a released one for UP |
| PressTracker.JoyConPlugin.constructor | android/plugins/src/main/kotlin/fr/natnya/joycon/JoyConAndroidPlugin.kt:64 | a fresh plugin holds nothing and has emitted nothing |
| PressTracker.JoyConPlugin.HandleKeyEvent | android/plugins/src/main/kotlin/fr/natnya/joycon/JoyConAndroidPlugin.kt:79-90 | the new map, the appended signals and the result are those of KeyEventStep; the invariant is kept |
| PressTracker.JoyConPlugin.HandleKeyDown | android/plugins/src/main/kotlin/fr/natnya/joycon/JoyConAndroidPlugin.kt:92-124 | the in-place update (`getOrPut(...).add`, emit) matches KeyDown on the old map and appends its signal to the log |
| PressTracker.JoyConPlugin.HandleKeyUp | android/plugins/src/main/kotlin/fr/natnya/joycon/JoyConAndroidPlugin.kt:126-157 | the in-place update (`?.remove`, emit) matches KeyUp on the old map and appends its signal to the log |
| PressTracker.JoyConPlugin.PollJoyConButtons | android/plugins/src/main/kotlin/fr/natnya/joycon/JoyConAndroidPlugin.kt:211-218 | returns the device's held set, duplicate-free and within the index range, or an empty array for a device with no entry |
| PressTracker.Replay | android/plugins/src/main/kotlin/fr/natnya/joycon/JoyConAndroidPlugin.kt:64 | after any sequence of calls the map is well formed: no duplicates, only mapped indices |
| PressTracker.HeldIffLastTouchWasPress | android/plugins/src/main/kotlin/fr/natnya/joycon/JoyConAndroidPlugin.kt:107-149 | after any sequence of calls, a device holds index b iff the last handled event of that device for a key mapped to b was a press |
| PressTracker.RepeatedPressReemits | android/plugins/src/main/kotlin/fr/natnya/joycon/JoyConAndroidPlugin.kt:111-112 | pressing the same key twice leaves the map as after the first press yet emits the pressed signal again |
| PressTracker.ReleaseOfUnheldButton | android/plugins/src/main/kotlin/fr/natnya/joycon/JoyConAndroidPlugin.kt:141-149 | releasing an index that is not held changes nothing, returns true and still emits the released signal |
| PressTracker.PressStep | android/plugins/src/main/kotlin/fr/natnya/joycon/JoyConAndroidPlugin.kt:107-115 | an accepted press on a one-device map adds the index and emits one pressed signal |
| PressTracker.ReleaseStep | android/plugins/src/main/kotlin/fr/natnya/joycon/JoyConAndroidPlugin.kt:141-149 | an accepted release on a one-device map removes the index and emits one released signal |
| PressTracker.FirstPress | android/plugins/src/main/kotlin/fr/natnya/joycon/JoyConAndroidPlugin.kt:111-112 | the first press on a fresh plugin creates the device's entry holding just that index |
| PressTracker.KeyboardDpadPressed | android/plugins/src/main/kotlin/fr/natnya/joycon/JoyConAndroidPlugin.kt:103-115 | D-pad up from a keyboard source (0x101) is recorded and signalled as Joy-Con index 11 on a fresh plugin, though the intended test refuses that source |
| PressTracker.ReleasingMinusDropsZL | android/plugins/src/main/kotlin/fr/natnya/joycon/JoyConAndroidPlugin.kt:141-149 | press ZL, press Minus, release Minus: 6 is held after the presses and nothing after the release, with two pressed signals and one released signal |
| PressTracker.PressPressReleaseScenario | android/plugins/src/main/kotlin/fr/natnya/joycon/JoyConAndroidPlugin.kt:92-157 | press L, press D-pad up, release L on device 7: the signals are pressed 4, pressed 11, released 4, and 11 alone is held |
| RawInput.U32 | android/plugins/src/main/kotlin/fr/natnya/joycon/JoyConAndroidPlugin_v2.kt:145 | the unsigned little-endian number of four bytes lies in [0, 2^32) |
| RawInput.S32 | android/plugins/src/main/kotlin/fr/natnya/joycon/JoyConAndroidPlugin_v2.kt:145 | the two's-complement number of four bytes lies in [-2^31, 2^31) |
| RawInput.ShortToIntLowBits | android/plugins/src/main/kotlin/fr/natnya/joycon/JoyConAndroidPlugin_v2.kt:143 | `toInt()` sign-extends a short, and masking with 0xFFFF gives back its 16 bits |
| RawInput.MaskedShortValue | android/plugins/src/main/kotlin/fr/natnya/joycon/JoyConAndroidPlugin_v2.kt:143 | `s.toInt() and 0xFFFF` is the unsigned value of the short's bits, whatever its sign |
| RawInput.UnsignedShortField | android/plugins/src/main/kotlin/fr/natnya/joycon/JoyConAndroidPlugin_v2.kt:143-144 | a little-endian short read, widened and masked, is the unsigned number lo + 256·hi |
| RawInput.SignedIntField | android/plugins/src/main/kotlin/fr/natnya/joycon/JoyConAndroidPlugin_v2.kt:145 | a little-endian int read is the two's-complement number of the four bytes |
| RawInput.UnsignedShortAt | android/plugins/src/main/kotlin/fr/natnya/joycon/JoyConAndroidPlugin_v2.kt:143-144 | the masked short at a cursor position is the u16 of the two bytes there |
| RawInput.IntAt | android/plugins/src/main/kotlin/fr/natnya/joycon/JoyConAndroidPlugin_v2.kt:145 | the int at a cursor position is the s32 of the four bytes there |
| RawInput.ParseInputEvent | android/plugins/src/main/kotlin/fr/natnya/joycon/JoyConAndroidPlugin_v2.kt:137-145 | type is the u16 at bytes 16–17, code the u16 at 18–19, value the s32 at 20–23; type and code in [0, 65535], value in the signed 32-bit range |
| RawInput.TimestampIgnored | android/plugins/src/main/kotlin/fr/natnya/joycon/JoyConAndroidPlugin_v2.kt:140-141 | two records that differ only in bytes 0–15 decode alike |
| RawInput.ShortBytes | android/plugins/src/main/kotlin/fr/natnya/joycon/JoyConAndroidPlugin_v2.kt:143 | the little-endian bytes of a short read back as that short |
| RawInput.IntBytes | android/plugins/src/main/kotlin/fr/natnya/joycon/JoyConAndroidPlugin_v2.kt:145 | the little-endian bytes of an int read back as that int |
| RawInput.EncodeInputEvent | android/plugins/src/main/kotlin/fr/natnya/joycon/JoyConAndroidPlugin_v2.kt:128-136 | an encoded record is 24 bytes and starts with the given timestamp |
| RawInput.DecodeEncode | android/plugins/src/main/kotlin/fr/natnya/joycon/JoyConAndroidPlugin_v2.kt:137-145 | decoding an encoded (type, code, value) gives type and code as unsigned numbers and value as a signed one |
| RawInput.ShortBytesOfShort | android/plugins/src/main/kotlin/fr/natnya/joycon/JoyConAndroidPlugin_v2.kt:143 | re-encoding the short read from two bytes gives those bytes |
| RawInput.IntBytesOfInt | android/plugins/src/main/kotlin/fr/natnya/joycon/JoyConAndroidPlugin_v2.kt:145 | re-encoding the int read from four bytes gives those bytes |
| RawInput.EncodeDecode | android/plugins/src/main/kotlin/fr/natnya/joycon/JoyConAndroidPlugin_v2.kt:137-145 | every 24-byte record is the encoding of its timestamp and the three fields read from it |
| RawInput.ButtonNameWhitelist | android/plugins/src/main/kotlin/fr/natnya/joycon/JoyConAndroidPlugin_v2.kt:164-175 | the `when` names a code iff it is one of the nine BTN_* constants |
| RawInput.HandleRawKeyEvent | android/plugins/src/main/kotlin/fr/natnya/joycon/JoyConAndroidPlugin_v2.kt:158-186 | a signal iff value is 0 or 1 and the code is whitelisted; it is for device 0 with the raw code, pressed iff value 1, released iff value 0 |
| RawInput.ProcessRecord | android/plugins/src/main/kotlin/fr/natnya/joycon/JoyConAndroidPlugin_v2.kt:137-151 | a record emits iff its type is EV_KEY, its code whitelisted and its value 0 or 1, and then the signal of HandleRawKeyEvent |
| RawInput.ProcessRecordBytes | android/plugins/src/main/kotlin/fr/natnya/joycon/JoyConAndroidPlugin_v2.kt:143-150 | the same condition stated on the record's bytes |
| RawInput.StreamSignals | android/plugins/src/main/kotlin/fr/natnya/joycon/JoyConAndroidPlugin_v2.kt:83-88 | a run of reads emits at most one signal per read, each for device 0 with a whitelisted code |
| RawInput.ReadLoop | android/plugins/src/main/kotlin/fr/natnya/joycon/JoyConAndroidPlugin_v2.kt:80-88 | the loop over a reused 24-byte array emits exactly StreamSignals of the reads |
| RawInput.StreamSignalsAppend | android/plugins/src/main/kotlin/fr/natnya/joycon/JoyConAndroidPlugin_v2.kt:83-88 | no state survives between reads: a run emits what its two halves emit, in order |
| RawInput.ShortReadDropped | android/plugins/src/main/kotlin/fr/natnya/joycon/JoyConAndroidPlugin_v2.kt:84-87 | a read shorter than 24 bytes anywhere in a run changes nothing |
| RawInput.SplitRecordDropped | android/plugins/src/main/kotlin/fr/natnya/joycon/JoyConAndroidPlugin_v2.kt:84-87 | a record delivered in two reads is never reassembled and emits nothing |
| RawInput.KeyRecordEmits | android/plugins/src/main/kotlin/fr/natnya/joycon/JoyConAndroidPlugin_v2.kt:148-185 | one full EV_KEY record of a whitelisted code with value 1 or 0 emits exactly one pressed or released signal for device 0 with that code |
| RawInput.NonKeyRecordSilent | android/plugins/src/main/kotlin/fr/natnya/joycon/JoyConAndroidPlugin_v2.kt:148-150 | a full record whose type is not EV_KEY emits nothing |
| RawInput.OtherValueSilent | android/plugins/src/main/kotlin/fr/natnya/joycon/JoyConAndroidPlugin_v2.kt:159-162 | a full record whose value is neither 0 nor 1 emits nothing |
| RawInput.UnknownCodeSilent | android/plugins/src/main/kotlin/fr/natnya/joycon/JoyConAndroidPlugin_v2.kt:164-175 | a full record whose code is not whitelisted emits nothing |
| KeyForwarder.OnMainKeyUp | android/plugins/JoyConAndroidPlugin.kt:63-72 | emits iff the event is non-null, its source passes the written test `(source and SOURCE_GAMEPAD) != 0` and the key is mapped, and then a released signal for the event's device and returns true; otherwise returns the super handler's result |
| KeyForwarder.OnMainKeyDown | android/plugins/JoyConAndroidPlugin.kt:74-83 | the same with a pressed signal |
| KeyForwarder.ForwardAll | android/plugins/JoyConAndroidPlugin.kt:63-83 | a run of events emits at most one signal per event |
| KeyForwarder.RepeatedPressesAllEmit | android/plugins/JoyConAndroidPlugin.kt:74-83 | the overrides keep no state: n identical accepted presses emit n identical pressed signals |
| KeyForwarder.TrackerEmitsAsForwarder | android/plugins/src/main/kotlin/fr/natnya/joycon/JoyConAndroidPlugin.kt:79-157 | for every sequence of events, the tracking revision's signal log equals what the stateless overrides emit |
| KeyForwarder.HandledIffForwarded | android/plugins/JoyConAndroidPlugin.kt:63-83 | the tracking handler handles an event iff the stateless override emits for it; then the override returns true, otherwise the super result |
| CapabilityPoll.Accepted | android/plugins/JoyConAndroidPlugin.kt:41-45 | the filtered list is no longer than the table |
| CapabilityPoll.PollJoyConButtons | android/plugins/JoyConAndroidPlugin.kt:35-48 | an unknown device gives the empty array; otherwise the loop returns the indices of the entries whose key the device has, in table order |
| CapabilityPoll.AcceptedAppend | android/plugins/JoyConAndroidPlugin.kt:41-45 | filtering a concatenation is the concatenation of the filtered parts, so order is kept |
| CapabilityPoll.AllKeysGiveValues | android/plugins/JoyConAndroidPlugin.kt:41-45 | a device with every key gets every value, in order |
| CapabilityPoll.EmptyIffNoKey | android/src/main/kotlin/fr/natnya/joycon/JoyConAndroidPlugin.kt:41-47 | the result is empty iff the device has none of the keys |
| CapabilityPoll.AcceptedSize | android/src/main/kotlin/fr/natnya/joycon/JoyConAndroidPlugin.kt:41-47 | the result's length is the number of entries whose key the device has |
| CapabilityPoll.AcceptedCounts | android/src/main/kotlin/fr/natnya/joycon/JoyConAndroidPlugin.kt:41-43 | each index occurs once per supported entry that carries it |
| CapabilityPoll.PollMembership | android/src/main/kotlin/fr/natnya/joycon/JoyConAndroidPlugin.kt:41-43 | an index is in the result iff some key the device has maps to it |
| CapabilityPoll.OccurrencePosition | android/src/main/kotlin/fr/natnya/joycon/JoyConAndroidPlugin.kt:41-43 | every occurrence of an index comes from a supported entry carrying it |
| CapabilityPoll.PositionOccurs | android/src/main/kotlin/fr/natnya/joycon/JoyConAndroidPlugin.kt:41-43 | every supported entry's index occurs in the result |
| CapabilityPoll.OccurrencesTable | android/src/main/kotlin/fr/natnya/joycon/JoyConAndroidPlugin.kt:23-33 | the number of occurrences of an index, key by key over the nine entries |
| CapabilityPoll.SharedIndexCount | android/src/main/kotlin/fr/natnya/joycon/JoyConAndroidPlugin.kt:25-43 | 6 occurs once for L2 and once more for SELECT, so twice when the device has both; every other index at most once |
| CapabilityPoll.FullJoyCon | android/plugins/JoyConAndroidPlugin.kt:23-47 | a device with all nine keys gets [4, 6, 16, 11, 12, 13, 14, 10, 6] |

## Left out

- Godot plugin glue is not modelled: plugin name, signal declarations and the permission and activity-result pass-throughs. `emitSignal` is an append to a log.
- The UI-thread key listener wiring and the resume, pause and destroy lifecycle are not modelled. The handlers are modelled as the listener calls them.
- Logging, `logAllInputDevices`, `getConnectedDevices`, `getDeviceName` and `isReaderActive` are not modelled. They only log or query Android devices.
- The device name lookup inside `handleKeyDown`/`handleKeyUp` is not modelled. It feeds only log lines.
- The raw reader thread, its `isReading` flag and `findJoyConLInputDevice` are not modelled. Neither are `FileInputStream` and the exception handlers. The loop is modelled over a finite run of reads, each at most 24 bytes.
- RawInput.ReadLoop: an end-of-stream read (-1) is not modelled. The stream is a finite sequence of non-negative-length reads.
- The 16-byte timestamp is skipped by the decoder and is only carried as bytes.
- `pressedButtons` is an unsynchronised map. The model is sequential and does not model concurrent handler calls.
- `InputDevice.getDevice` is a map from ids to devices. `hasKeys(keyCode).any { it }` is a set of supported key codes per device.
- The result of `super.onMainKeyDown`/`onMainKeyUp` is a parameter, because the framework's handler is not part of this model.
- Build files are not modelled.

## Findings

| source | as written | input that shows it | evidently intended | confidence | as-written member | corrected member |
|---|---|---|---|---|---|---|
| android/plugins/src/main/kotlin/fr/natnya/joycon/JoyConAndroidPlugin.kt:103 (also :137 and android/plugins/JoyConAndroidPlugin.kt:64, :75) | `(event.source and InputDevice.SOURCE_GAMEPAD) != 0`. SOURCE_GAMEPAD is 0x401 and shares the button class bit 0x1 with SOURCE_KEYBOARD (0x101) and SOURCE_DPAD (0x201). | a KEYCODE_DPAD_UP key event from a keyboard (source 0x101) passes the test and is forwarded as Joy-Con button 11 | only gamepad sources pass: `(source and SOURCE_GAMEPAD) == SOURCE_GAMEPAD` | not executed | PressTracker.KeyboardDpadPressed | Platform.GamepadTestCorrected |

`Platform.KeyboardPassesGamepadTest` shows the written test,
`Platform.IsGamepadAsWritten`, accepting keyboard and D-pad sources. The
handlers in `PressTracker` and `KeyForwarder` use it, as the code does.
`Platform.IsGamepad` is the intended test.

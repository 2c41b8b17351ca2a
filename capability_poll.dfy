/** `pollJoyConButtons` of the stateless revisions
    (android/plugins/JoyConAndroidPlugin.kt and
    android/src/main/kotlin/fr/natnya/joycon/JoyConAndroidPlugin.kt, which
    declare it identically). It does not read what is held: it walks
    `BUTTON_MAP` in order and lists the Godot index of every key the device
    says it has. */
module CapabilityPoll {
  import opened Platform
  import opened ButtonMap

  /** An Android input device, reduced to what `hasKeys` reports: the key
      codes for which `device.hasKeys(keyCode).any { it }` holds. */
  datatype InputDevice = InputDevice(supportedKeys: set<int>)

  /** The indices of the entries whose key the device supports, in table
      order. */
  function Accepted(entries: seq<(int, int)>, supportedKeys: set<int>): (indices: seq<int>)
    ensures |indices| <= |entries|
  {
    if entries == [] then []
    else
      (if entries[0].0 in supportedKeys then [entries[0].1] else [])
        + Accepted(entries[1..], supportedKeys)
  }

  /** `pollJoyConButtons(deviceId)`: `devices` is what
      `InputDevice.getDevice` knows; an unknown id gives the empty array. */
  method PollJoyConButtons(devices: map<int, InputDevice>, deviceId: int) returns (buttons: seq<int>)
    ensures deviceId !in devices ==> buttons == []
    ensures deviceId in devices ==> buttons == Accepted(BUTTON_ENTRIES, devices[deviceId].supportedKeys)
  {
    if deviceId !in devices {
      return [];
    }
    var device := devices[deviceId];
    buttons := [];
    for i := 0 to |BUTTON_ENTRIES|
      invariant buttons == Accepted(BUTTON_ENTRIES[..i], device.supportedKeys)
    {
      var (keyCode, godotIndex) := BUTTON_ENTRIES[i];
      AcceptedAppend(BUTTON_ENTRIES[..i], [BUTTON_ENTRIES[i]], device.supportedKeys);
      assert BUTTON_ENTRIES[..i + 1] == BUTTON_ENTRIES[..i] + [BUTTON_ENTRIES[i]];
      assert [BUTTON_ENTRIES[i]][1..] == [];
      if keyCode in device.supportedKeys {
        buttons := buttons + [godotIndex];
      }
    }
    assert BUTTON_ENTRIES[..|BUTTON_ENTRIES|] == BUTTON_ENTRIES;
  }

  /** Filtering a concatenation filters each part. */
  lemma {:induction false} AcceptedAppend(front: seq<(int, int)>, back: seq<(int, int)>, supportedKeys: set<int>)
    ensures Accepted(front + back, supportedKeys) == Accepted(front, supportedKeys) + Accepted(back, supportedKeys)
  {
    if front == [] {
      assert front + back == back;
    } else {
      var head := if front[0].0 in supportedKeys then [front[0].1] else [];
      var a, b := Accepted(front[1..], supportedKeys), Accepted(back, supportedKeys);
      assert (front + back)[0] == front[0];
      assert (front + back)[1..] == front[1..] + back;
      AcceptedAppend(front[1..], back, supportedKeys);
      assert Accepted(front + back, supportedKeys) == head + (a + b);
      assert head + (a + b) == (head + a) + b;
    }
  }

  /** A device with every key reports every index, in table order. */
  lemma {:induction false} AllKeysGiveValues(entries: seq<(int, int)>, supportedKeys: set<int>)
    requires forall i :: 0 <= i < |entries| ==> entries[i].0 in supportedKeys
    ensures Accepted(entries, supportedKeys) == Values(entries)
  {
    if entries != [] {
      assert entries[0].0 in supportedKeys;
      AllKeysGiveValues(entries[1..], supportedKeys);
    }
  }

  /** The result is empty exactly when the device has none of the keys. */
  lemma {:induction false} EmptyIffNoKey(entries: seq<(int, int)>, supportedKeys: set<int>)
    ensures Accepted(entries, supportedKeys) == []
            <==> forall i :: 0 <= i < |entries| ==> entries[i].0 !in supportedKeys
  {
    if entries != [] {
      EmptyIffNoKey(entries[1..], supportedKeys);
      assert forall i :: 1 <= i < |entries| ==> entries[1..][i - 1] == entries[i];
    }
  }

  /** How many entries have a supported key. */
  function SupportedCount(entries: seq<(int, int)>, supportedKeys: set<int>): nat {
    if entries == [] then 0
    else (if entries[0].0 in supportedKeys then 1 else 0) + SupportedCount(entries[1..], supportedKeys)
  }

  /** The result has one index per entry whose key is supported. */
  lemma {:induction false} AcceptedSize(entries: seq<(int, int)>, supportedKeys: set<int>)
    ensures |Accepted(entries, supportedKeys)| == SupportedCount(entries, supportedKeys)
  {
    if entries != [] {
      AcceptedSize(entries[1..], supportedKeys);
    }
  }

  /** How often an index occurs in the result: once per supported key that
      maps to it. */
  function Occurrences(entries: seq<(int, int)>, supportedKeys: set<int>, v: int): nat {
    if entries == [] then 0
    else
      (if entries[0].0 in supportedKeys && entries[0].1 == v then 1 else 0)
        + Occurrences(entries[1..], supportedKeys, v)
  }

  lemma {:induction false} AcceptedCounts(entries: seq<(int, int)>, supportedKeys: set<int>, v: int)
    ensures multiset(Accepted(entries, supportedKeys))[v] == Occurrences(entries, supportedKeys, v)
  {
    if entries != [] {
      AcceptedCounts(entries[1..], supportedKeys, v);
    }
  }

  /** A supported mapped key's index is in the result, and every index in
      the result comes from a supported mapped key. */
  lemma PollMembership(supportedKeys: set<int>, v: int)
    ensures v in Accepted(BUTTON_ENTRIES, supportedKeys)
            <==> exists keyCode :: keyCode in supportedKeys && Lookup(keyCode) == Some(v)
  {
    var e := BUTTON_ENTRIES;
    AcceptedCounts(e, supportedKeys, v);
    if v in Accepted(e, supportedKeys) {
      assert Occurrences(e, supportedKeys, v) > 0;
      var i :| 0 <= i < 9 && e[i].0 in supportedKeys && e[i].1 == v by {
        OccurrencePosition(e, supportedKeys, v);
      }
      LookupEntry(i);
    } else {
      forall keyCode | keyCode in supportedKeys && Lookup(keyCode) == Some(v)
        ensures false
      {
        var i := IndexOf(e, keyCode);
        PositionOccurs(e, supportedKeys, v, i);
      }
    }
  }

  /** An occurrence comes from some entry. */
  lemma {:induction false} OccurrencePosition(entries: seq<(int, int)>, supportedKeys: set<int>, v: int)
    requires Occurrences(entries, supportedKeys, v) > 0
    ensures exists i :: 0 <= i < |entries| && entries[i].0 in supportedKeys && entries[i].1 == v
  {
    if !(entries[0].0 in supportedKeys && entries[0].1 == v) {
      OccurrencePosition(entries[1..], supportedKeys, v);
      var i :| 0 <= i < |entries| - 1 && entries[1..][i].0 in supportedKeys && entries[1..][i].1 == v;
      assert entries[i + 1] == entries[1..][i];
    }
  }

  /** A supported entry contributes an occurrence. */
  lemma {:induction false} PositionOccurs(entries: seq<(int, int)>, supportedKeys: set<int>, v: int, i: int)
    requires 0 <= i < |entries| && entries[i].0 in supportedKeys && entries[i].1 == v
    ensures Occurrences(entries, supportedKeys, v) > 0
  {
    if i > 0 {
      assert entries[1..][i - 1] == entries[i];
      PositionOccurs(entries[1..], supportedKeys, v, i - 1);
    }
  }

  /** The count of an index, key by key. */
  lemma OccurrencesTable(supportedKeys: set<int>, v: int)
    ensures Occurrences(BUTTON_ENTRIES, supportedKeys, v)
            == (if KEYCODE_BUTTON_L1 in supportedKeys && v == 4 then 1 else 0)
               + (if KEYCODE_BUTTON_L2 in supportedKeys && v == 6 then 1 else 0)
               + (if KEYCODE_BUTTON_Z in supportedKeys && v == 16 then 1 else 0)
               + (if KEYCODE_DPAD_UP in supportedKeys && v == 11 then 1 else 0)
               + (if KEYCODE_DPAD_DOWN in supportedKeys && v == 12 then 1 else 0)
               + (if KEYCODE_DPAD_LEFT in supportedKeys && v == 13 then 1 else 0)
               + (if KEYCODE_DPAD_RIGHT in supportedKeys && v == 14 then 1 else 0)
               + (if KEYCODE_BUTTON_THUMBL in supportedKeys && v == 10 then 1 else 0)
               + (if KEYCODE_BUTTON_SELECT in supportedKeys && v == 6 then 1 else 0)
  {
    var e := BUTTON_ENTRIES;
    assert e[0..] == e && e[9..] == [];
    OccurrencesStep(e, supportedKeys, v, 0);
    OccurrencesStep(e, supportedKeys, v, 1);
    OccurrencesStep(e, supportedKeys, v, 2);
    OccurrencesStep(e, supportedKeys, v, 3);
    OccurrencesStep(e, supportedKeys, v, 4);
    OccurrencesStep(e, supportedKeys, v, 5);
    OccurrencesStep(e, supportedKeys, v, 6);
    OccurrencesStep(e, supportedKeys, v, 7);
    OccurrencesStep(e, supportedKeys, v, 8);
  }

  /** Index 6 appears once for ZL and once more for Minus; every other
      index at most once. */
  lemma SharedIndexCount(supportedKeys: set<int>, v: int)
    ensures multiset(Accepted(BUTTON_ENTRIES, supportedKeys))[6]
            == (if KEYCODE_BUTTON_L2 in supportedKeys then 1 else 0)
               + (if KEYCODE_BUTTON_SELECT in supportedKeys then 1 else 0)
    ensures v != 6 ==> multiset(Accepted(BUTTON_ENTRIES, supportedKeys))[v] <= 1
  {
    AcceptedCounts(BUTTON_ENTRIES, supportedKeys, 6);
    AcceptedCounts(BUTTON_ENTRIES, supportedKeys, v);
    OccurrencesTable(supportedKeys, 6);
    OccurrencesTable(supportedKeys, v);
  }

  /** One unfolding of Occurrences at position i. */
  lemma OccurrencesStep(entries: seq<(int, int)>, supportedKeys: set<int>, v: int, i: int)
    requires 0 <= i < |entries|
    ensures Occurrences(entries[i..], supportedKeys, v)
            == (if entries[i].0 in supportedKeys && entries[i].1 == v then 1 else 0)
               + Occurrences(entries[i + 1..], supportedKeys, v)
  {
    assert entries[i..][1..] == entries[i + 1..];
  }

  /** A Joy-Con that reports all nine keys gets the whole table's indices,
      6 included twice. */
  lemma FullJoyCon(supportedKeys: set<int>)
    requires forall keyCode :: keyCode in Keys(BUTTON_ENTRIES) ==> keyCode in supportedKeys
    ensures Accepted(BUTTON_ENTRIES, supportedKeys) == [4, 6, 16, 11, 12, 13, 14, 10, 6]
  {
    var ks := Keys(BUTTON_ENTRIES);
    forall i | 0 <= i < |BUTTON_ENTRIES| ensures BUTTON_ENTRIES[i].0 in supportedKeys {
      assert ks[i] in ks;
    }
    AllKeysGiveValues(BUTTON_ENTRIES, supportedKeys);
    assert Values(BUTTON_ENTRIES) == [4, 6, 16, 11, 12, 13, 14, 10, 6];
  }
}

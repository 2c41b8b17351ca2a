/** The key-event revision of the plugin that remembers which buttons each
    device holds (android/plugins/src/main/kotlin/fr/natnya/joycon/JoyConAndroidPlugin.kt).
    `pressedButtons` maps a device id to a `mutableSetOf()`, which is a
    LinkedHashSet: no duplicates, iterated in insertion order. It is modelled
    as a duplicate-free sequence per device. Every `emitSignal` call is
    appended to a log. */
module PressTracker {
  import opened Platform
  import opened ButtonMap

  /** The contents of `pressedButtons`. */
  type PressedMap = map<int, seq<int>>

  predicate NoDuplicates(s: seq<int>) {
    forall i, j :: 0 <= i < j < |s| ==> s[i] != s[j]
  }

  /** Every device's set is a set, and holds only indices `BUTTON_MAP` produces. */
  predicate WellFormed(pressed: PressedMap) {
    forall d :: d in pressed ==>
      NoDuplicates(pressed[d]) && forall x :: x in pressed[d] ==> x in BUTTON_INDICES
  }

  /** `MutableSet.add`: a new element goes to the end, a present one leaves
      the set as it was. */
  function Add(s: seq<int>, x: int): (r: seq<int>)
    ensures forall y :: y in r <==> y in s || y == x
    ensures NoDuplicates(s) ==> NoDuplicates(r)
    ensures x in s ==> r == s
    ensures |s| <= |r| <= |s| + 1 && r[..|s|] == s
  {
    if x in s then s else s + [x]
  }

  /** `MutableSet.remove`: the element is gone, the others keep their order. */
  function Remove(s: seq<int>, x: int): (r: seq<int>)
    ensures forall y :: y in r <==> y in s && y != x
    ensures NoDuplicates(s) ==> NoDuplicates(r)
    ensures x !in s ==> r == s
    ensures x in s && NoDuplicates(s) ==> |r| == |s| - 1
  {
    if s == [] then []
    else if s[0] == x then Remove(s[1..], x)
    else
      var rest := Remove(s[1..], x);
      assert NoDuplicates(s) ==> s[0] !in s[1..] && NoDuplicates(s[1..]) by {
        if NoDuplicates(s) { TailNoDuplicates(s); }
      }
      [s[0]] + rest
  }

  /** A set's first element does not recur in its tail, which is a set too. */
  lemma TailNoDuplicates(s: seq<int>)
    requires s != [] && NoDuplicates(s)
    ensures s[0] !in s[1..] && NoDuplicates(s[1..])
  {
    forall k | 0 <= k < |s[1..]| ensures s[1..][k] != s[0] { assert s[1..][k] == s[k + 1]; }
  }

  /** Removing a present element cuts it out where it stands: the elements
      before it and after it keep their order. */
  lemma {:induction false} RemoveKeepsOrder(s: seq<int>, x: int)
    requires NoDuplicates(s) && x in s
    ensures exists k :: 0 <= k < |s| && s[k] == x && Remove(s, x) == s[..k] + s[k + 1..]
  {
    TailNoDuplicates(s);
    if s[0] == x {
      assert Remove(s, x) == Remove(s[1..], x) == s[1..];
      assert s[..0] + s[1..] == s[1..];
    } else {
      assert x in s[1..];
      RemoveKeepsOrder(s[1..], x);
      var j :| 0 <= j < |s| - 1 && s[1..][j] == x && Remove(s[1..], x) == s[1..][..j] + s[1..][j + 1..];
      RemoveAfterHead(s, x, j);
    }
  }

  /** One step of RemoveKeepsOrder: a cut in the tail is a cut one place
      further on in the whole. */
  lemma RemoveAfterHead(s: seq<int>, x: int, j: int)
    requires s != [] && s[0] != x && 0 <= j < |s| - 1 && s[1..][j] == x
    requires Remove(s[1..], x) == s[1..][..j] + s[1..][j + 1..]
    ensures s[j + 1] == x && Remove(s, x) == s[..j + 1] + s[j + 2..]
  {
    var tail := s[1..];
    assert s[..j + 1] == [s[0]] + tail[..j];
    assert s[j + 2..] == tail[j + 1..];
    assert [s[0]] + (tail[..j] + tail[j + 1..]) == ([s[0]] + tail[..j]) + tail[j + 1..];
  }

  /** `pressedButtons[deviceId]?.toIntArray() ?: intArrayOf()`. */
  function Held(pressed: PressedMap, deviceId: int): seq<int> {
    if deviceId in pressed then pressed[deviceId] else []
  }

  /** What one handler call does: the new map, the signals it emits and the
      Boolean it returns. */
  datatype Outcome = Outcome(pressed: PressedMap, emitted: seq<Signal>, handled: bool)

  /** The three conditions both handlers test before touching anything. */
  predicate Accepts(keyCode: int, event: Option<KeyEvent>) {
    event.Some? && IsGamepadAsWritten(event.value.source) && Lookup(keyCode).Some?
  }

  /** `handleKeyDown(keyCode, event)`. */
  function KeyDown(pressed: PressedMap, keyCode: int, event: Option<KeyEvent>): (o: Outcome)
    ensures o.handled <==> Accepts(keyCode, event)
    ensures !o.handled ==> o.pressed == pressed && o.emitted == []
    ensures o.handled ==>
      var d, b := event.value.deviceId, Lookup(keyCode).value;
      && o.emitted == [Signal(PRESSED, d, b)]
      && o.pressed.Keys == pressed.Keys + {d}
      && (forall x :: x in o.pressed[d] <==> x in Held(pressed, d) || x == b)
      && (forall d' :: d' in pressed && d' != d ==> o.pressed[d'] == pressed[d'])
    ensures WellFormed(pressed) ==> WellFormed(o.pressed)
  {
    if event.None? then Outcome(pressed, [], false)
    else if !IsGamepadAsWritten(event.value.source) then Outcome(pressed, [], false)
    else match Lookup(keyCode)
      case None => Outcome(pressed, [], false)
      case Some(b) =>
        var d := event.value.deviceId;
        Outcome(pressed[d := Add(Held(pressed, d), b)], [Signal(PRESSED, d, b)], true)
  }

  /** `handleKeyUp(keyCode, event)`. */
  function KeyUp(pressed: PressedMap, keyCode: int, event: Option<KeyEvent>): (o: Outcome)
    ensures o.handled <==> Accepts(keyCode, event)
    ensures !o.handled ==> o.pressed == pressed && o.emitted == []
    ensures o.handled ==>
      var d, b := event.value.deviceId, Lookup(keyCode).value;
      && o.emitted == [Signal(RELEASED, d, b)]
      && o.pressed.Keys == pressed.Keys
      && (forall x :: x in Held(o.pressed, d) <==> x in Held(pressed, d) && x != b)
      && (forall d' :: d' in pressed && d' != d ==> o.pressed[d'] == pressed[d'])
    ensures WellFormed(pressed) ==> WellFormed(o.pressed)
  {
    if event.None? then Outcome(pressed, [], false)
    else if !IsGamepadAsWritten(event.value.source) then Outcome(pressed, [], false)
    else match Lookup(keyCode)
      case None => Outcome(pressed, [], false)
      case Some(b) =>
        var d := event.value.deviceId;
        var after := if d in pressed then pressed[d := Remove(pressed[d], b)] else pressed;
        Outcome(after, [Signal(RELEASED, d, b)], true)
  }

  /** `handleKeyEvent(keyCode, event)`: ACTION_DOWN and ACTION_UP go to the
      two handlers, every other action is refused. */
  function KeyEventStep(pressed: PressedMap, keyCode: int, event: KeyEvent): (o: Outcome)
    ensures event.action != ACTION_DOWN && event.action != ACTION_UP ==>
              o == Outcome(pressed, [], false)
    ensures o.handled <==> event.action in {ACTION_DOWN, ACTION_UP} && Accepts(keyCode, Some(event))
    ensures |o.emitted| == if o.handled then 1 else 0
    ensures o.handled ==>
              o.emitted[0].name == (if event.action == ACTION_DOWN then PRESSED else RELEASED)
    ensures WellFormed(pressed) ==> WellFormed(o.pressed)
  {
    if event.action == ACTION_DOWN then KeyDown(pressed, keyCode, Some(event))
    else if event.action == ACTION_UP then KeyUp(pressed, keyCode, Some(event))
    else Outcome(pressed, [], false)
  }

  /** The plugin object, reduced to the state the key handlers use. */
  class JoyConPlugin {
    var pressedButtons: PressedMap
    /** Every `emitSignal` call made so far, oldest first. */
    ghost var signals: seq<Signal>

    ghost predicate Valid()
      reads this
    {
      WellFormed(pressedButtons)
    }

    constructor ()
      ensures Valid() && pressedButtons == map[] && signals == []
    {
      pressedButtons := map[];
      signals := [];
    }

    method HandleKeyEvent(keyCode: int, event: KeyEvent) returns (handled: bool)
      requires Valid()
      modifies this
      ensures Valid()
      ensures var o := KeyEventStep(old(pressedButtons), keyCode, event);
        pressedButtons == o.pressed && signals == old(signals) + o.emitted && handled == o.handled
    {
      if event.action == ACTION_DOWN {
        handled := HandleKeyDown(keyCode, Some(event));
      } else if event.action == ACTION_UP {
        handled := HandleKeyUp(keyCode, Some(event));
      } else {
        handled := false;
      }
    }

    method HandleKeyDown(keyCode: int, event: Option<KeyEvent>) returns (handled: bool)
      requires Valid()
      modifies this
      ensures Valid()
      ensures var o := KeyDown(old(pressedButtons), keyCode, event);
        pressedButtons == o.pressed && signals == old(signals) + o.emitted && handled == o.handled
    {
      if event.None? {
        return false;
      }
      ghost var o := KeyDown(pressedButtons, keyCode, event);
      var deviceId := event.value.deviceId;
      var isGamepad := IsGamepadAsWritten(event.value.source);
      if isGamepad {
        var godotButton := Lookup(keyCode);
        if godotButton.Some? {
          // getOrPut(deviceId) { mutableSetOf() }.add(godotButton)
          var buttons := if deviceId in pressedButtons then pressedButtons[deviceId] else [];
          pressedButtons := pressedButtons[deviceId := Add(buttons, godotButton.value)];
          assert pressedButtons == o.pressed;
          signals := signals + [Signal(PRESSED, deviceId, godotButton.value)];
          return true;
        }
      }
      return false;
    }

    method HandleKeyUp(keyCode: int, event: Option<KeyEvent>) returns (handled: bool)
      requires Valid()
      modifies this
      ensures Valid()
      ensures var o := KeyUp(old(pressedButtons), keyCode, event);
        pressedButtons == o.pressed && signals == old(signals) + o.emitted && handled == o.handled
    {
      if event.None? {
        return false;
      }
      var deviceId := event.value.deviceId;
      var isGamepad := IsGamepadAsWritten(event.value.source);
      if isGamepad {
        var godotButton := Lookup(keyCode);
        if godotButton.Some? {
          // pressedButtons[deviceId]?.remove(godotButton)
          if deviceId in pressedButtons {
            pressedButtons := pressedButtons[deviceId := Remove(pressedButtons[deviceId], godotButton.value)];
          }
          signals := signals + [Signal(RELEASED, deviceId, godotButton.value)];
          return true;
        }
      }
      return false;
    }

    /** `pollJoyConButtons(deviceId)`: the device's held indices, each once,
        in the order they were first pressed; empty for an unknown device. */
    method PollJoyConButtons(deviceId: int) returns (buttons: seq<int>)
      requires Valid()
      ensures NoDuplicates(buttons)
      ensures forall x :: x in buttons ==> x in BUTTON_INDICES
      ensures deviceId !in pressedButtons ==> buttons == []
      ensures deviceId in pressedButtons ==> buttons == pressedButtons[deviceId]
    {
      if deviceId in pressedButtons {
        buttons := pressedButtons[deviceId];
      } else {
        buttons := [];
      }
    }
  }

  /** One `handleKeyEvent(keyCode, event)` call. */
  datatype Call = Call(keyCode: int, event: KeyEvent)

  /** The map and the signal log of a fresh plugin after a sequence of calls. */
  datatype History = History(pressed: PressedMap, log: seq<Signal>)

  function Replay(calls: seq<Call>): (h: History)
    ensures WellFormed(h.pressed)
  {
    if calls == [] then History(map[], [])
    else
      var h := Replay(calls[..|calls| - 1]);
      var c := calls[|calls| - 1];
      var o := KeyEventStep(h.pressed, c.keyCode, c.event);
      History(o.pressed, h.log + o.emitted)
  }

  /** A call that the handlers act on for button index `b` of device `d`. */
  predicate Touches(c: Call, d: int, b: int) {
    && (c.event.action == ACTION_DOWN || c.event.action == ACTION_UP)
    && Accepts(c.keyCode, Some(c.event))
    && c.event.deviceId == d && Lookup(c.keyCode) == Some(b)
  }

  /** Whether the last call touching (d, b) was a press; None if no call did. */
  function LastTouch(calls: seq<Call>, d: int, b: int): Option<bool> {
    if calls == [] then None
    else if Touches(calls[|calls| - 1], d, b) then Some(calls[|calls| - 1].event.action == ACTION_DOWN)
    else LastTouch(calls[..|calls| - 1], d, b)
  }

  /** A device holds index `b` exactly when the last accepted down or up event
      of that device for a key mapped to `b` was a down. Keys that share an
      index share its state. */
  lemma {:induction false} HeldIffLastTouchWasPress(calls: seq<Call>, d: int, b: int)
    ensures b in Held(Replay(calls).pressed, d) <==> LastTouch(calls, d, b) == Some(true)
  {
    if calls != [] {
      var prefix, c := calls[..|calls| - 1], calls[|calls| - 1];
      HeldIffLastTouchWasPress(prefix, d, b);
      var before := Replay(prefix).pressed;
      var o := KeyEventStep(before, c.keyCode, c.event);
      assert Replay(calls).pressed == o.pressed;
      if o.handled && c.event.deviceId == d {
        if c.event.action == ACTION_DOWN {
          assert o == KeyDown(before, c.keyCode, Some(c.event));
        } else {
          assert o == KeyUp(before, c.keyCode, Some(c.event));
        }
      } else if o.handled {
        if c.event.action == ACTION_DOWN {
          assert o == KeyDown(before, c.keyCode, Some(c.event));
        } else {
          assert o == KeyUp(before, c.keyCode, Some(c.event));
        }
        assert Held(o.pressed, d) == Held(before, d);
      }
    }
  }

  /** Pressing a held button again leaves the map as it was, yet emits the
      pressed signal a second time. */
  lemma RepeatedPressReemits(pressed: PressedMap, keyCode: int, event: KeyEvent)
    requires Accepts(keyCode, Some(event))
    ensures var once := KeyDown(pressed, keyCode, Some(event));
            var twice := KeyDown(once.pressed, keyCode, Some(event));
            && twice.pressed == once.pressed
            && twice.emitted == once.emitted == [Signal(PRESSED, event.deviceId, Lookup(keyCode).value)]
  {
  }

  /** Releasing a button that is not held changes nothing, creates no entry,
      and is still signalled and reported as handled. */
  lemma ReleaseOfUnheldButton(pressed: PressedMap, keyCode: int, event: KeyEvent)
    requires Accepts(keyCode, Some(event))
    requires Lookup(keyCode).value !in Held(pressed, event.deviceId)
    ensures var o := KeyUp(pressed, keyCode, Some(event));
            && o.pressed == pressed && o.handled
            && o.emitted == [Signal(RELEASED, event.deviceId, Lookup(keyCode).value)]
  {
    var d := event.deviceId;
    if d in pressed {
      assert pressed[d := Remove(pressed[d], Lookup(keyCode).value)] == pressed;
    }
  }

  /** An accepted down event of device `d` for a key mapped to `b`, on a
      map whose only entry is `d`'s. */
  lemma PressStep(held: seq<int>, keyCode: int, d: int, source: bv32, b: int)
    requires IsGamepadAsWritten(source) && Lookup(keyCode) == Some(b)
    ensures KeyEventStep(map[d := held], keyCode, KeyEvent(ACTION_DOWN, d, source))
            == Outcome(map[d := Add(held, b)], [Signal(PRESSED, d, b)], true)
  {
    assert map[d := held][d := Add(held, b)] == map[d := Add(held, b)];
  }

  /** An accepted up event of device `d` for a key mapped to `b`, on a map
      whose only entry is `d`'s. */
  lemma ReleaseStep(held: seq<int>, keyCode: int, d: int, source: bv32, b: int)
    requires IsGamepadAsWritten(source) && Lookup(keyCode) == Some(b)
    ensures KeyEventStep(map[d := held], keyCode, KeyEvent(ACTION_UP, d, source))
            == Outcome(map[d := Remove(held, b)], [Signal(RELEASED, d, b)], true)
  {
    assert map[d := held][d := Remove(held, b)] == map[d := Remove(held, b)];
  }

  /** An accepted down event of device `d` on a fresh plugin. */
  lemma FirstPress(keyCode: int, d: int, source: bv32, b: int)
    requires IsGamepadAsWritten(source) && Lookup(keyCode) == Some(b)
    ensures KeyEventStep(map[], keyCode, KeyEvent(ACTION_DOWN, d, source))
            == Outcome(map[d := [b]], [Signal(PRESSED, d, b)], true)
  {
    assert Add([], b) == [b];
  }

  /** The written source test lets a keyboard through: D-pad up from a
      keyboard (SOURCE_KEYBOARD) is recorded and signalled as Joy-Con index
      11, although the intended test refuses that source. */
  lemma KeyboardDpadPressed(d: int)
    ensures KeyEventStep(map[], KEYCODE_DPAD_UP, KeyEvent(ACTION_DOWN, d, SOURCE_KEYBOARD))
            == Outcome(map[d := [11]], [Signal(PRESSED, d, 11)], true)
    ensures !IsGamepad(SOURCE_KEYBOARD)
  {
    KeyboardPassesGamepadTest();
    GamepadTestCorrected(SOURCE_KEYBOARD);
    assert Lookup(KEYCODE_DPAD_UP) == Some(11) by { LookupEntry(3); }
    FirstPress(KEYCODE_DPAD_UP, d, SOURCE_KEYBOARD, 11);
  }

  /** ZL (KEYCODE_BUTTON_L2) and Minus (KEYCODE_BUTTON_SELECT) share index 6:
      on a fresh plugin, pressing ZL, pressing Minus and releasing Minus
      leaves the device with nothing held although ZL is still down, after
      two pressed signals and one released signal. */
  lemma ReleasingMinusDropsZL(d: int, source: bv32)
    requires IsGamepadAsWritten(source)
    ensures var o1 := KeyEventStep(map[], KEYCODE_BUTTON_L2, KeyEvent(ACTION_DOWN, d, source));
            var o2 := KeyEventStep(o1.pressed, KEYCODE_BUTTON_SELECT, KeyEvent(ACTION_DOWN, d, source));
            var o3 := KeyEventStep(o2.pressed, KEYCODE_BUTTON_SELECT, KeyEvent(ACTION_UP, d, source));
            && Held(o2.pressed, d) == [6]
            && Held(o3.pressed, d) == []
            && o1.emitted == [Signal(PRESSED, d, 6)]
            && o2.emitted == [Signal(PRESSED, d, 6)]
            && o3.emitted == [Signal(RELEASED, d, 6)]
  {
    assert Lookup(KEYCODE_BUTTON_L2) == Some(6) by { LookupEntry(1); }
    assert Lookup(KEYCODE_BUTTON_SELECT) == Some(6) by { LookupEntry(8); }
    assert Add([6], 6) == [6];
    assert Remove([6], 6) == [] by {
      assert [6][1..] == [];
    }
    var sig, rel := Signal(PRESSED, d, 6), Signal(RELEASED, d, 6);
    var o1 := KeyEventStep(map[], KEYCODE_BUTTON_L2, KeyEvent(ACTION_DOWN, d, source));
    FirstPress(KEYCODE_BUTTON_L2, d, source, 6);
    assert o1 == Outcome(map[d := [6]], [sig], true);
    var o2 := KeyEventStep(o1.pressed, KEYCODE_BUTTON_SELECT, KeyEvent(ACTION_DOWN, d, source));
    PressStep([6], KEYCODE_BUTTON_SELECT, d, source, 6);
    assert o2 == Outcome(map[d := [6]], [sig], true);
    var o3 := KeyEventStep(o2.pressed, KEYCODE_BUTTON_SELECT, KeyEvent(ACTION_UP, d, source));
    ReleaseStep([6], KEYCODE_BUTTON_SELECT, d, source, 6);
    assert o3 == Outcome(map[d := []], [rel], true);
  }

  /** Device 7 of a fresh plugin presses L, presses D-pad up and releases L:
      three signals in that order, and D-pad up is all that remains held. */
  lemma PressPressReleaseScenario(source: bv32)
    requires IsGamepadAsWritten(source)
    ensures var o1 := KeyEventStep(map[], KEYCODE_BUTTON_L1, KeyEvent(ACTION_DOWN, 7, source));
            var o2 := KeyEventStep(o1.pressed, KEYCODE_DPAD_UP, KeyEvent(ACTION_DOWN, 7, source));
            var o3 := KeyEventStep(o2.pressed, KEYCODE_BUTTON_L1, KeyEvent(ACTION_UP, 7, source));
            && o1.emitted == [Signal(PRESSED, 7, 4)]
            && o2.emitted == [Signal(PRESSED, 7, 11)]
            && o3.emitted == [Signal(RELEASED, 7, 4)]
            && Held(o3.pressed, 7) == [11]
  {
    assert Lookup(KEYCODE_BUTTON_L1) == Some(4) by { LookupEntry(0); }
    assert Lookup(KEYCODE_DPAD_UP) == Some(11) by { LookupEntry(3); }
    assert Add([4], 11) == [4, 11];
    assert Remove([4, 11], 4) == [11] by {
      assert [4, 11][0] == 4 && [4, 11][1..] == [11];
      assert Remove([11], 4) == [11];
    }
    var l, up, rel := Signal(PRESSED, 7, 4), Signal(PRESSED, 7, 11), Signal(RELEASED, 7, 4);
    var o1 := KeyEventStep(map[], KEYCODE_BUTTON_L1, KeyEvent(ACTION_DOWN, 7, source));
    FirstPress(KEYCODE_BUTTON_L1, 7, source, 4);
    assert o1 == Outcome(map[7 := [4]], [l], true);
    var o2 := KeyEventStep(o1.pressed, KEYCODE_DPAD_UP, KeyEvent(ACTION_DOWN, 7, source));
    PressStep([4], KEYCODE_DPAD_UP, 7, source, 11);
    assert o2 == Outcome(map[7 := [4, 11]], [up], true);
    var o3 := KeyEventStep(o2.pressed, KEYCODE_BUTTON_L1, KeyEvent(ACTION_UP, 7, source));
    ReleaseStep([4, 11], KEYCODE_BUTTON_L1, 7, source, 4);
    assert o3 == Outcome(map[7 := [11]], [rel], true);
  }
}

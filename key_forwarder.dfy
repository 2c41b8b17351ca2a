/** The stateless key-event revision of the plugin
    (android/plugins/JoyConAndroidPlugin.kt): `onMainKeyDown` and
    `onMainKeyUp` forward a mapped gamepad key as a signal and otherwise
    defer to the `GodotPlugin` implementation they override, whose answer
    is a parameter here. */
module KeyForwarder {
  import opened Platform
  import opened ButtonMap
  import PressTracker

  /** What one override call does: the Boolean it returns and the signal
      it emits, if any. */
  datatype Dispatch = Dispatch(consumed: bool, emitted: Option<Signal>)

  /** The test both overrides make before looking the key up. */
  predicate FromGamepad(event: Option<KeyEvent>) {
    event.Some? && IsGamepadAsWritten(event.value.source)
  }

  /** `onMainKeyUp(keyCode, event)`; `superResult` is what
      `super.onMainKeyUp(keyCode, event)` would return. */
  function OnMainKeyUp(keyCode: int, event: Option<KeyEvent>, superResult: bool): (d: Dispatch)
    ensures d.emitted.Some? <==> FromGamepad(event) && Lookup(keyCode).Some?
    ensures d.emitted.Some? ==>
              d.consumed && d.emitted.value == Signal(RELEASED, event.value.deviceId, Lookup(keyCode).value)
    ensures d.emitted.None? ==> d.consumed == superResult
  {
    if event.Some? && IsGamepadAsWritten(event.value.source) then
      match Lookup(keyCode)
        case Some(godotButton) => Dispatch(true, Some(Signal(RELEASED, event.value.deviceId, godotButton)))
        case None => Dispatch(superResult, None)
    else
      Dispatch(superResult, None)
  }

  /** `onMainKeyDown(keyCode, event)`; `superResult` is what
      `super.onMainKeyDown(keyCode, event)` would return. */
  function OnMainKeyDown(keyCode: int, event: Option<KeyEvent>, superResult: bool): (d: Dispatch)
    ensures d.emitted.Some? <==> FromGamepad(event) && Lookup(keyCode).Some?
    ensures d.emitted.Some? ==>
              d.consumed && d.emitted.value == Signal(PRESSED, event.value.deviceId, Lookup(keyCode).value)
    ensures d.emitted.None? ==> d.consumed == superResult
  {
    if event.Some? && IsGamepadAsWritten(event.value.source) then
      match Lookup(keyCode)
        case Some(godotButton) => Dispatch(true, Some(Signal(PRESSED, event.value.deviceId, godotButton)))
        case None => Dispatch(superResult, None)
    else
      Dispatch(superResult, None)
  }

  /** The signals of one dispatch, as a list. */
  function Emitted(d: Dispatch): seq<Signal> {
    if d.emitted.Some? then [d.emitted.value] else []
  }

  /** What the framework's calls emit: down events reach `onMainKeyDown`,
      up events `onMainKeyUp`, other actions neither. */
  function ForwardAll(calls: seq<PressTracker.Call>): (signals: seq<Signal>)
    ensures |signals| <= |calls|
  {
    if calls == [] then []
    else
      var c := calls[|calls| - 1];
      var now :=
        if c.event.action == ACTION_DOWN then Emitted(OnMainKeyDown(c.keyCode, Some(c.event), false))
        else if c.event.action == ACTION_UP then Emitted(OnMainKeyUp(c.keyCode, Some(c.event), false))
        else [];
      ForwardAll(calls[..|calls| - 1]) + now
  }

  /** The stateless revision keeps nothing between calls: the same down
      event emits the same pressed signal every time, however often it
      comes. */
  lemma {:induction false} RepeatedPressesAllEmit(keyCode: int, event: KeyEvent, n: nat)
    requires event.action == ACTION_DOWN && FromGamepad(Some(event)) && Lookup(keyCode).Some?
    ensures ForwardAll(seq(n, _ => PressTracker.Call(keyCode, event)))
            == seq(n, _ => Signal(PRESSED, event.deviceId, Lookup(keyCode).value))
  {
    if n > 0 {
      var sig := Signal(PRESSED, event.deviceId, Lookup(keyCode).value);
      var calls := seq(n, _ => PressTracker.Call(keyCode, event));
      assert calls[..n - 1] == seq(n - 1, _ => PressTracker.Call(keyCode, event));
      assert Emitted(OnMainKeyDown(keyCode, Some(event), false)) == [sig];
      RepeatedPressesAllEmit(keyCode, event, n - 1);
      assert seq(n, _ => sig) == seq(n - 1, _ => sig) + [sig];
    }
  }

  /** The tracking revision emits exactly what the stateless one emits for
      the same events: its pressed-button map adds state but never
      suppresses or adds a signal. */
  lemma {:induction false} TrackerEmitsAsForwarder(calls: seq<PressTracker.Call>)
    ensures PressTracker.Replay(calls).log == ForwardAll(calls)
  {
    if calls != [] {
      var prefix, c := calls[..|calls| - 1], calls[|calls| - 1];
      TrackerEmitsAsForwarder(prefix);
      var before := PressTracker.Replay(prefix).pressed;
      if c.event.action == ACTION_DOWN {
        assert PressTracker.KeyEventStep(before, c.keyCode, c.event)
               == PressTracker.KeyDown(before, c.keyCode, Some(c.event));
      } else if c.event.action == ACTION_UP {
        assert PressTracker.KeyEventStep(before, c.keyCode, c.event)
               == PressTracker.KeyUp(before, c.keyCode, Some(c.event));
      }
    }
  }

  /** When the tracker handles an event, the stateless override consumes
      it too; when the tracker refuses it, the override defers to the
      framework. */
  lemma HandledIffForwarded(pressed: PressTracker.PressedMap, keyCode: int, event: KeyEvent, superResult: bool)
    requires event.action == ACTION_DOWN || event.action == ACTION_UP
    ensures var o := PressTracker.KeyEventStep(pressed, keyCode, event);
            var d := if event.action == ACTION_DOWN then OnMainKeyDown(keyCode, Some(event), superResult)
                     else OnMainKeyUp(keyCode, Some(event), superResult);
            && (o.handled <==> d.emitted.Some?)
            && (o.handled ==> d.consumed)
            && (!o.handled ==> d.consumed == superResult)
  {
  }
}

/** Android and Godot vocabulary shared by every revision of the Joy-Con plugin:
    the optional wrapper used for Kotlin's nullable types, the fields of an
    Android KeyEvent that the plugin reads, the platform constants it compares
    against, the gamepad-source test and the signals it emits to Godot. */
module Platform {

  /** Kotlin's `T?`: a value or null. */
  datatype Option<+T> = None | Some(value: T)

  /** Android `KeyEvent.ACTION_*` values. */
  const ACTION_DOWN: int := 0
  const ACTION_UP: int := 1

  /** Android `KeyEvent.KEYCODE_*` values for the buttons the plugin maps. */
  const KEYCODE_DPAD_UP: int := 19
  const KEYCODE_DPAD_DOWN: int := 20
  const KEYCODE_DPAD_LEFT: int := 21
  const KEYCODE_DPAD_RIGHT: int := 22
  const KEYCODE_BUTTON_Z: int := 101
  const KEYCODE_BUTTON_L1: int := 102
  const KEYCODE_BUTTON_L2: int := 104
  const KEYCODE_BUTTON_THUMBL: int := 106
  const KEYCODE_BUTTON_SELECT: int := 109

  /** Android `InputDevice.SOURCE_*` bit masks. Every button-class source
      shares the class bit 0x1. */
  const SOURCE_CLASS_BUTTON: bv32 := 0x0000_0001
  const SOURCE_KEYBOARD: bv32 := 0x0000_0101
  const SOURCE_DPAD: bv32 := 0x0000_0201
  const SOURCE_GAMEPAD: bv32 := 0x0000_0401
  const SOURCE_JOYSTICK: bv32 := 0x0100_0010

  /** The fields of an Android KeyEvent that the plugin reads; the key code
      is passed to the handlers separately, as the framework does. */
  datatype KeyEvent = KeyEvent(action: int, deviceId: int, source: bv32)

  /** The gamepad test exactly as the plugin writes it:
      `(event.source and InputDevice.SOURCE_GAMEPAD) != 0`. */
  predicate IsGamepadAsWritten(source: bv32) {
    source & SOURCE_GAMEPAD != 0
  }

  /** The as-written test accepts keyboard and D-pad sources too, because
      SOURCE_GAMEPAD shares the button class bit with them. */
  lemma KeyboardPassesGamepadTest()
    ensures IsGamepadAsWritten(SOURCE_KEYBOARD) && IsGamepadAsWritten(SOURCE_DPAD)
    ensures IsGamepadAsWritten(SOURCE_CLASS_BUTTON)
  {
    assert SOURCE_KEYBOARD & SOURCE_GAMEPAD == SOURCE_CLASS_BUTTON;
    assert SOURCE_DPAD & SOURCE_GAMEPAD == SOURCE_CLASS_BUTTON;
  }

  /** The gamepad test as intended: every bit of SOURCE_GAMEPAD is set.
      The key handlers keep the written test; this is its intended form. */
  predicate IsGamepad(source: bv32) {
    source & SOURCE_GAMEPAD == SOURCE_GAMEPAD
  }

  /** The intended test is strictly narrower than the written one: it keeps
      every source the written one keeps only when the gamepad bit 0x400 is
      present, and it rejects keyboards and D-pads while still accepting a
      controller that reports itself as gamepad and joystick at once. */
  lemma GamepadTestCorrected(source: bv32)
    ensures IsGamepad(source) ==> IsGamepadAsWritten(source)
    ensures IsGamepad(source) <==> (source & 0x400 != 0 && source & SOURCE_CLASS_BUTTON != 0)
    ensures !IsGamepad(SOURCE_KEYBOARD) && !IsGamepad(SOURCE_DPAD)
    ensures IsGamepad(SOURCE_GAMEPAD | SOURCE_JOYSTICK)
  {
  }

  /** The two Godot signals the plugin declares. */
  const PRESSED: string := "joycon_button_pressed"
  const RELEASED: string := "joycon_button_released"

  /** One `emitSignal(name, deviceId, index)` call. */
  datatype Signal = Signal(name: string, deviceId: int, index: int)
}

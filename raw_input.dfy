/** The raw-input revision of the plugin
    (android/plugins/src/main/kotlin/fr/natnya/joycon/JoyConAndroidPlugin_v2.kt):
    a reader loop fills a 24-byte buffer from a Linux event device, decodes
    each complete `struct input_event` (64-bit layout: a 16-byte timeval,
    then little-endian `__u16 type`, `__u16 code` and `__s32 value`), keeps
    key events, and emits a signal for presses and releases of nine buttons.

    Kotlin's `Short` and `Int` are kept as their bits (`bv16`, `bv32`) while
    the decoder works on them, so `getShort`, `toInt()` (sign extension) and
    `and 0xFFFF` are modelled as the bit operations they are; the decoded
    fields are the numbers those bits stand for. */
module RawInput {
  import opened Platform

  /** `sizeof(struct input_event)` on a 64-bit target. */
  const EVENT_SIZE: int := 24
  /** Offset of `type`, after the timeval. */
  const TIME_SIZE: int := 16
  const EV_KEY: int := 0x01

  /** Button codes from the Linux header `linux/input-event-codes.h`. */
  const BTN_DPAD_UP: int := 0x220
  const BTN_DPAD_DOWN: int := 0x221
  const BTN_DPAD_LEFT: int := 0x222
  const BTN_DPAD_RIGHT: int := 0x223
  const BTN_TL: int := 0x136
  const BTN_TL2: int := 0x138
  const BTN_Z: int := 0x135
  const BTN_SELECT: int := 0x13a
  const BTN_START: int := 0x13b

  /** The nine codes the handler names. */
  const KNOWN_CODES: set<int> := {BTN_DPAD_UP, BTN_DPAD_DOWN, BTN_DPAD_LEFT, BTN_DPAD_RIGHT,
                                  BTN_TL, BTN_TL2, BTN_Z, BTN_SELECT, BTN_START}

  /** The three fields of a record that the decoder reads. */
  datatype InputEvent = InputEvent(evType: int, code: int, value: int)

  // ---------------------------------------------------------------------
  // Reference definitions: little-endian numbers as arithmetic on bytes.

  /** The little-endian unsigned 16-bit number with bytes `lo`, `hi`. */
  function U16(lo: bv8, hi: bv8): int {
    lo as int + 0x100 * hi as int
  }

  /** The little-endian unsigned 32-bit number with bytes `b0` .. `b3`. */
  function U32(b0: bv8, b1: bv8, b2: bv8, b3: bv8): (n: int)
    ensures 0 <= n <= 0xFFFF_FFFF
  {
    b0 as int + 0x100 * b1 as int + 0x1_0000 * b2 as int + 0x100_0000 * b3 as int
  }

  /** The same four bytes read as a two's-complement signed number. */
  function S32(b0: bv8, b1: bv8, b2: bv8, b3: bv8): (n: int)
    ensures -0x8000_0000 <= n < 0x8000_0000
  {
    var u := U32(b0, b1, b2, b3);
    if u < 0x8000_0000 then u else u - 0x1_0000_0000
  }

  // ---------------------------------------------------------------------
  // Kotlin's ByteBuffer and integer conversions, on bits.

  /** The Kotlin `Short` whose low byte is `lo` and high byte `hi`. */
  function Short(lo: bv8, hi: bv8): bv16 {
    (hi as bv16 << 8) | lo as bv16
  }

  /** The Kotlin `Int` with bytes `b0` (lowest) .. `b3` (highest). */
  function Int(b0: bv8, b1: bv8, b2: bv8, b3: bv8): bv32 {
    (b3 as bv32 << 24) | (b2 as bv32 << 16) | (b1 as bv32 << 8) | b0 as bv32
  }

  /** `ByteBuffer.getShort()` in little-endian order at offset `at`. */
  function GetShort(buffer: seq<bv8>, at: int): bv16
    requires 0 <= at <= |buffer| - 2
  {
    Short(buffer[at], buffer[at + 1])
  }

  /** `ByteBuffer.getInt()` in little-endian order at offset `at`. */
  function GetInt(buffer: seq<bv8>, at: int): bv32
    requires 0 <= at <= |buffer| - 4
  {
    Int(buffer[at], buffer[at + 1], buffer[at + 2], buffer[at + 3])
  }

  /** `Short.toInt()`: sign extension from 16 to 32 bits. */
  function ShortToInt(s: bv16): bv32 {
    if s & 0x8000 == 0 then s as bv32 else s as bv32 | 0xFFFF_0000
  }

  /** The number a Kotlin `Int` with these bits stands for. */
  function IntValue(x: bv32): int {
    if x as int < 0x8000_0000 then x as int else x as int - 0x1_0000_0000
  }

  lemma ZeroExtendedBits(s: bv16)
    ensures (s as bv32) & 0xFFFF_0000 == 0 && (s as bv32) & 0xFFFF == s as bv32
  {
  }

  lemma SetHighBits(x: bv32)
    requires x & 0xFFFF_0000 == 0
    ensures (x | 0xFFFF_0000) & 0xFFFF == x
  {
  }

  /** Sign extension keeps the low 16 bits. */
  lemma ShortToIntLowBits(s: bv16)
    ensures ShortToInt(s) & 0xFFFF == s as bv32
  {
    ZeroExtendedBits(s);
    if s & 0x8000 != 0 {
      SetHighBits(s as bv32);
    }
  }

  /** A zero-extended short is a non-negative Int. */
  lemma ZeroExtendedValue(s: bv16)
    ensures IntValue(s as bv32) == s as int
  {
    assert (s as bv32) as int == s as int;
  }

  lemma ShiftOrShort(lo: bv8, hi: bv8)
    ensures ((hi as bv16 << 8) | lo as bv16) as int == lo as int + 0x100 * hi as int
  {
  }

  lemma ShortBitsValue(lo: bv8, hi: bv8)
    ensures Short(lo, hi) as int == U16(lo, hi)
  {
    var s := Short(lo, hi);
    assert s == (hi as bv16 << 8) | lo as bv16;
    ShiftOrShort(lo, hi);
  }

  lemma ShiftOrInt(b0: bv8, b1: bv8, b2: bv8, b3: bv8)
    ensures ((b3 as bv32 << 24) | (b2 as bv32 << 16) | (b1 as bv32 << 8) | b0 as bv32) as int
            == b0 as int + 0x100 * b1 as int + 0x1_0000 * b2 as int + 0x100_0000 * b3 as int
  {
  }

  lemma IntBitsValue(b0: bv8, b1: bv8, b2: bv8, b3: bv8)
    ensures Int(b0, b1, b2, b3) as int == U32(b0, b1, b2, b3)
  {
    var x := Int(b0, b1, b2, b3);
    assert x == (b3 as bv32 << 24) | (b2 as bv32 << 16) | (b1 as bv32 << 8) | b0 as bv32;
    ShiftOrInt(b0, b1, b2, b3);
  }

  /** `toInt() and 0xFFFF` undoes the sign extension of a short: the
      result is the short's bits read as an unsigned number. */
  lemma MaskedShortValue(s: bv16)
    ensures IntValue(ShortToInt(s) & 0xFFFF) == s as int
  {
    var masked := ShortToInt(s) & 0xFFFF;
    ShortToIntLowBits(s);
    assert masked == s as bv32;
    ZeroExtendedValue(s);
  }

  /** `getShort().toInt() and 0xFFFF` is the unsigned little-endian number
      of the two bytes. */
  lemma UnsignedShortField(lo: bv8, hi: bv8)
    ensures IntValue(ShortToInt(Short(lo, hi)) & 0xFFFF) == U16(lo, hi)
  {
    MaskedShortValue(Short(lo, hi));
    ShortBitsValue(lo, hi);
  }

  /** `getInt()` yields the two's-complement number of the four bytes. */
  lemma SignedIntField(b0: bv8, b1: bv8, b2: bv8, b3: bv8)
    ensures IntValue(Int(b0, b1, b2, b3)) == S32(b0, b1, b2, b3)
  {
    IntBitsValue(b0, b1, b2, b3);
  }

  /** `bb.short.toInt() and 0xFFFF` with the cursor at `at`: the unsigned
      little-endian number of bytes `at` and `at + 1`. */
  function UnsignedShortAt(buffer: seq<bv8>, at: int): (v: int)
    requires 0 <= at <= |buffer| - 2
    ensures v == U16(buffer[at], buffer[at + 1])
  {
    UnsignedShortField(buffer[at], buffer[at + 1]);
    IntValue(ShortToInt(GetShort(buffer, at)) & 0xFFFF)
  }

  /** `bb.int` with the cursor at `at`: the two's-complement little-endian
      number of bytes `at` .. `at + 3`. */
  function IntAt(buffer: seq<bv8>, at: int): (v: int)
    requires 0 <= at <= |buffer| - 4
    ensures v == S32(buffer[at], buffer[at + 1], buffer[at + 2], buffer[at + 3])
  {
    SignedIntField(buffer[at], buffer[at + 1], buffer[at + 2], buffer[at + 3]);
    IntValue(GetInt(buffer, at))
  }

  /** `parseInputEvent`'s decoding: skip the 16-byte timestamp, then read
      two masked shorts and an int, advancing the cursor. */
  function ParseInputEvent(buffer: seq<bv8>): (e: InputEvent)
    requires |buffer| == EVENT_SIZE
    ensures e.evType == U16(buffer[16], buffer[17])
    ensures e.code == U16(buffer[18], buffer[19])
    ensures e.value == S32(buffer[20], buffer[21], buffer[22], buffer[23])
    ensures 0 <= e.evType <= 0xFFFF && 0 <= e.code <= 0xFFFF
    ensures -0x8000_0000 <= e.value < 0x8000_0000
  {
    var evType := UnsignedShortAt(buffer, TIME_SIZE);
    var code := UnsignedShortAt(buffer, TIME_SIZE + 2);
    var value := IntAt(buffer, TIME_SIZE + 4);
    InputEvent(evType, code, value)
  }

  /** The timestamp bytes never influence the decoded fields. */
  lemma TimestampIgnored(a: seq<bv8>, b: seq<bv8>)
    requires |a| == |b| == EVENT_SIZE && a[TIME_SIZE..] == b[TIME_SIZE..]
    ensures ParseInputEvent(a) == ParseInputEvent(b)
  {
    forall k | TIME_SIZE <= k < EVENT_SIZE ensures a[k] == b[k] {
      assert a[k] == a[TIME_SIZE..][k - TIME_SIZE];
    }
  }

  // ---------------------------------------------------------------------
  // The encoding the decoder inverts: a record written from the bits of
  // its three fields, as a little-endian ByteBuffer would write them.

  /** The bytes `putShort` writes for `s`, low byte first. */
  function ShortBytes(s: bv16): (bytes: seq<bv8>)
    ensures |bytes| == 2 && Short(bytes[0], bytes[1]) == s
  {
    [(s & 0xFF) as bv8, (s >> 8) as bv8]
  }

  /** The bytes `putInt` writes for `x`, low byte first. */
  function IntBytes(x: bv32): (bytes: seq<bv8>)
    ensures |bytes| == 4 && Int(bytes[0], bytes[1], bytes[2], bytes[3]) == x
  {
    [(x & 0xFF) as bv8, ((x >> 8) & 0xFF) as bv8, ((x >> 16) & 0xFF) as bv8, (x >> 24) as bv8]
  }

  /** A record with the given timestamp bytes and field bits. */
  function EncodeInputEvent(time: seq<bv8>, evType: bv16, code: bv16, value: bv32): (buffer: seq<bv8>)
    requires |time| == TIME_SIZE
    ensures |buffer| == EVENT_SIZE && buffer[..TIME_SIZE] == time
  {
    time + ShortBytes(evType) + ShortBytes(code) + IntBytes(value)
  }

  /** Decoding an encoded record gives back its fields: the two shorts as
      unsigned numbers and the int as a signed one. */
  lemma DecodeEncode(time: seq<bv8>, evType: bv16, code: bv16, value: bv32)
    requires |time| == TIME_SIZE
    ensures ParseInputEvent(EncodeInputEvent(time, evType, code, value))
            == InputEvent(evType as int, code as int, IntValue(value))
  {
    var buffer := EncodeInputEvent(time, evType, code, value);
    var t, c, v := ShortBytes(evType), ShortBytes(code), IntBytes(value);
    assert buffer[16..18] == t && buffer[18..20] == c && buffer[20..] == v;
    assert buffer[16] == t[0] && buffer[17] == t[1];
    assert buffer[18] == c[0] && buffer[19] == c[1];
    assert buffer[20] == v[0] && buffer[21] == v[1] && buffer[22] == v[2] && buffer[23] == v[3];
    ShortBitsValue(t[0], t[1]);
    ShortBitsValue(c[0], c[1]);
    IntBitsValue(v[0], v[1], v[2], v[3]);
  }

  lemma ShortBytesOfShort(lo: bv8, hi: bv8)
    ensures ShortBytes(Short(lo, hi)) == [lo, hi]
  {
    var s := Short(lo, hi);
    assert s == (hi as bv16 << 8) | lo as bv16;
    assert (((hi as bv16 << 8) | lo as bv16) & 0xFF) as bv8 == lo;
    assert (((hi as bv16 << 8) | lo as bv16) >> 8) as bv8 == hi;
  }

  lemma IntBytesOfInt(b0: bv8, b1: bv8, b2: bv8, b3: bv8)
    ensures IntBytes(Int(b0, b1, b2, b3)) == [b0, b1, b2, b3]
  {
    var x := Int(b0, b1, b2, b3);
    assert x == (b3 as bv32 << 24) | (b2 as bv32 << 16) | (b1 as bv32 << 8) | b0 as bv32;
  }

  /** Every record is the encoding of its timestamp and the field bits the
      decoder reads, so decoding loses nothing but the timestamp. */
  lemma EncodeDecode(buffer: seq<bv8>)
    requires |buffer| == EVENT_SIZE
    ensures EncodeInputEvent(buffer[..TIME_SIZE], GetShort(buffer, TIME_SIZE),
                             GetShort(buffer, TIME_SIZE + 2), GetInt(buffer, TIME_SIZE + 4)) == buffer
  {
    ShortBytesOfShort(buffer[16], buffer[17]);
    ShortBytesOfShort(buffer[18], buffer[19]);
    IntBytesOfInt(buffer[20], buffer[21], buffer[22], buffer[23]);
    assert buffer == buffer[..16] + [buffer[16], buffer[17]] + [buffer[18], buffer[19]]
                     + [buffer[20], buffer[21], buffer[22], buffer[23]];
  }

  // ---------------------------------------------------------------------
  // Classification and emission.

  /** The button name the handler's `when` gives a code, or None for the
      `else -> return` branch. */
  function ButtonName(code: int): Option<string> {
    if code == BTN_DPAD_UP then Some("DPAD_UP")
    else if code == BTN_DPAD_DOWN then Some("DPAD_DOWN")
    else if code == BTN_DPAD_LEFT then Some("DPAD_LEFT")
    else if code == BTN_DPAD_RIGHT then Some("DPAD_RIGHT")
    else if code == BTN_TL then Some("L_BUTTON")
    else if code == BTN_TL2 then Some("ZL_BUTTON")
    else if code == BTN_Z then Some("SCREENSHOT")
    else if code == BTN_SELECT then Some("SL_BUTTON")
    else if code == BTN_START then Some("SR_BUTTON")
    else None
  }

  /** The `when` names exactly the nine codes. */
  lemma ButtonNameWhitelist(code: int)
    ensures ButtonName(code).Some? <==> code in KNOWN_CODES
  {
  }

  /** `handleRawKeyEvent(code, value)`: the signal it emits, if any. */
  function HandleRawKeyEvent(code: int, value: int): (r: Option<Signal>)
    ensures r.Some? <==> (value == 0 || value == 1) && code in KNOWN_CODES
    ensures r.Some? ==> r.value.deviceId == 0 && r.value.index == code
    ensures r.Some? ==> (r.value.name == PRESSED <==> value == 1)
    ensures r.Some? ==> (r.value.name == RELEASED <==> value == 0)
  {
    var pressed := value == 1;
    var released := value == 0;
    if !pressed && !released then None
    else match ButtonName(code)
      case None => None
      case Some(_) => Some(Signal(if pressed then PRESSED else RELEASED, 0, code))
  }

  /** `parseInputEvent(buffer)`: decode, keep key events, classify. */
  function ProcessRecord(buffer: seq<bv8>): (r: Option<Signal>)
    requires |buffer| == EVENT_SIZE
    ensures var e := ParseInputEvent(buffer);
      r.Some? <==> e.evType == EV_KEY && e.code in KNOWN_CODES && (e.value == 0 || e.value == 1)
    ensures var e := ParseInputEvent(buffer);
      r.Some? ==> r.value == Signal(if e.value == 1 then PRESSED else RELEASED, 0, e.code)
  {
    var e := ParseInputEvent(buffer);
    if e.evType == EV_KEY then HandleRawKeyEvent(e.code, e.value) else None
  }

  /** The same condition on the bytes themselves: type bytes 01 00, a
      whitelisted code, and value bytes 00 or 01 followed by three zeros. */
  lemma ProcessRecordBytes(buffer: seq<bv8>)
    requires |buffer| == EVENT_SIZE
    ensures ProcessRecord(buffer).Some? <==>
      && buffer[16] == 1 && buffer[17] == 0
      && U16(buffer[18], buffer[19]) in KNOWN_CODES
      && (buffer[20] == 0 || buffer[20] == 1)
      && buffer[21] == 0 && buffer[22] == 0 && buffer[23] == 0
  {
  }

  // ---------------------------------------------------------------------
  // The read loop.

  /** What the loop emits when successive `stream.read(buffer)` calls
      deliver the given byte blocks: a block of exactly EVENT_SIZE bytes is
      one record, any other block is dropped. */
  function StreamSignals(blocks: seq<seq<bv8>>): (signals: seq<Signal>)
    ensures |signals| <= |blocks|
    ensures forall s :: s in signals ==> s.deviceId == 0 && s.index in KNOWN_CODES
  {
    if blocks == [] then []
    else
      var last := blocks[|blocks| - 1];
      var r := if |last| == EVENT_SIZE then ProcessRecord(last) else None;
      StreamSignals(blocks[..|blocks| - 1]) + (if r.Some? then [r.value] else [])
  }

  /** The reader thread's loop over a finite run of blocks. The buffer is
      allocated once and reused; a read overwrites only as many bytes as
      it delivers. */
  method ReadLoop(blocks: seq<seq<bv8>>) returns (emitted: seq<Signal>)
    requires forall i :: 0 <= i < |blocks| ==> |blocks[i]| <= EVENT_SIZE
    ensures emitted == StreamSignals(blocks)
  {
    var buffer := new bv8[EVENT_SIZE];
    emitted := [];
    var i := 0;
    while i < |blocks|
      invariant 0 <= i <= |blocks|
      invariant emitted == StreamSignals(blocks[..i])
    {
      var block := blocks[i];
      var bytesRead := |block|;
      var k := 0;
      while k < bytesRead
        invariant 0 <= k <= bytesRead
        invariant buffer[..k] == block[..k]
      {
        buffer[k] := block[k];
        k := k + 1;
      }
      if bytesRead == EVENT_SIZE {
        assert buffer[..] == block;
        var r := ProcessRecord(buffer[..]);
        if r.Some? {
          emitted := emitted + [r.value];
        }
      }
      assert blocks[..i + 1][..i] == blocks[..i];
      i := i + 1;
    }
    assert blocks[..i] == blocks;
  }

  /** Reads are independent: what a run emits is what its parts emit. */
  lemma {:induction false} StreamSignalsAppend(a: seq<seq<bv8>>, b: seq<seq<bv8>>)
    ensures StreamSignals(a + b) == StreamSignals(a) + StreamSignals(b)
  {
    if b != [] {
      var last := b[|b| - 1];
      assert (a + b)[..|a + b| - 1] == a + b[..|b| - 1];
      assert (a + b)[|a + b| - 1] == last;
      StreamSignalsAppend(a, b[..|b| - 1]);
    } else {
      assert a + b == a;
    }
  }

  /** A short read anywhere in a run is dropped without a trace. */
  lemma ShortReadDropped(before: seq<seq<bv8>>, block: seq<bv8>, after: seq<seq<bv8>>)
    requires |block| < EVENT_SIZE
    ensures StreamSignals(before + [block] + after) == StreamSignals(before + after)
  {
    StreamSignalsAppend(before + [block], after);
    StreamSignalsAppend(before, [block]);
    StreamSignalsAppend(before, after);
    assert [block][..0] == [];
  }

  /** A record delivered in two pieces is never reassembled. */
  lemma SplitRecordDropped(record: seq<bv8>, k: int)
    requires |record| == EVENT_SIZE && 0 < k < EVENT_SIZE
    ensures StreamSignals([record[..k], record[k..]]) == []
  {
    assert [record[..k], record[k..]][..1] == [record[..k]];
    assert [record[..k]][..0] == [];
  }

  /** One full read of a key record of a whitelisted button with value 1 or
      0 emits that button's pressed or released signal for device 0,
      whatever its timestamp. */
  lemma KeyRecordEmits(time: seq<bv8>, code: bv16, value: bv32)
    requires |time| == TIME_SIZE && code as int in KNOWN_CODES && (value == 0 || value == 1)
    ensures StreamSignals([EncodeInputEvent(time, 1, code, value)])
            == [Signal(if value == 1 then PRESSED else RELEASED, 0, code as int)]
  {
    var buffer := EncodeInputEvent(time, 1, code, value);
    DecodeEncode(time, 1, code, value);
    assert [buffer][..0] == [];
  }

  /** A full record whose type is not EV_KEY emits nothing. */
  lemma NonKeyRecordSilent(time: seq<bv8>, evType: bv16, code: bv16, value: bv32)
    requires |time| == TIME_SIZE && evType != 1
    ensures StreamSignals([EncodeInputEvent(time, evType, code, value)]) == []
  {
    DecodeEncode(time, evType, code, value);
    assert [EncodeInputEvent(time, evType, code, value)][..0] == [];
  }

  /** A full key record whose value is neither 0 nor 1 (autorepeat 2,
      negative or larger) emits nothing. */
  lemma OtherValueSilent(record: seq<bv8>)
    requires |record| == EVENT_SIZE
    requires ParseInputEvent(record).value != 0 && ParseInputEvent(record).value != 1
    ensures StreamSignals([record]) == []
  {
    assert [record][..0] == [];
  }

  /** A full key record of a code outside the nine emits nothing. */
  lemma UnknownCodeSilent(record: seq<bv8>)
    requires |record| == EVENT_SIZE && ParseInputEvent(record).code !in KNOWN_CODES
    ensures StreamSignals([record]) == []
  {
    assert [record][..0] == [];
  }
}

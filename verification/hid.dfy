/**
 * What the firmware sends out: keyboard reports to the USB host and flushes of
 * the LED and display buffers, in one ordered trace.
 */
module Hid {
  // Usage IDs of the USB HID Usage Tables 1.12, section 10 (Keyboard/Keypad page).
  // The proofs only use that they are positive.
  const TAB: int := 0x2B
  const F12: int := 0x45
  const RIGHT_ARROW: int := 0x4F
  const LEFT_ARROW: int := 0x50
  const CONTROL: int := 0xE0
  const SHIFT: int := 0xE1
  const ALT: int := 0xE2

  /** One entry of the output trace. */
  datatype Effect =
    | Press(key: int)       // keyboard.press
    | Release(key: int)     // keyboard.release
    | ReleaseAll            // keyboard.release_all
    | Write(text: string)   // keyboard_layout.write
    | ShowPixels            // pixels.show: the LED buffer goes out to the keys
    | RefreshDisplay        // display.refresh: the label group goes out to the screen

  /** The entries that reach the USB host, as opposed to the device's own LEDs and screen. */
  predicate IsHostAction(e: Effect) {
    e.Press? || e.Release? || e.ReleaseAll? || e.Write?
  }
}

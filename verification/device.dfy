/**
 * The MACROPAD as the firmware sees it: the LED buffer of the 12 keys, the 12 key labels and
 * the header label of the screen, and the ordered trace of everything sent to the host,
 * the LEDs and the screen. Both buffers are written without auto-refresh, so a change is
 * visible only once a `ShowPixels` or `RefreshDisplay` follows it in the trace.
 */
module Device {
  import opened Hid

  /** Number of keys, LEDs and key labels. */
  const KEYS: nat := 12
  /** LED colour of a key that is held down. */
  const WHITE: int := 0xFFFFFF

  /** The device state as a value. */
  datatype PadState = PadState(pixels: seq<int>, labels: seq<string>, header: string, trace: seq<Effect>)

  /** Power-up state: LEDs off, labels and header empty, nothing sent. */
  function Blank(): PadState {
    PadState(seq(KEYS, _ => 0), seq(KEYS, _ => ""), "", [])
  }

  class MacroPad {
    const pixels: array<int>
    const labels: array<string>
    var header: string
    var trace: seq<Effect>

    ghost predicate Valid() {
      pixels.Length == KEYS && labels.Length == KEYS
    }

    function View(): PadState
      reads this, pixels, labels
    {
      PadState(pixels[..], labels[..], header, trace)
    }

    constructor ()
      ensures Valid() && fresh(pixels) && fresh(labels)
      ensures View() == Blank()
    {
      pixels := new int[KEYS](_ => 0);
      labels := new string[KEYS](_ => "");
      header := "";
      trace := [];
      new;
      assert pixels[..] == seq(KEYS, _ => 0);
      assert labels[..] == seq(KEYS, _ => "");
    }
  }
}

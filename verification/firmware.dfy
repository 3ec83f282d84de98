/**
 * The start-up code and the main loop of the firmware: switching to a profile, the
 * per-tick priority of encoder button, encoder rotation and key events, and the macro
 * dispatcher. The spec layer (`Switched`, `Dispatched`, `Step`, `Steps`, `Boot`) describes
 * each operation on values; `Switch`, `Dispatch` and class `Controller` carry it out on the
 * device and are proved equal to it.
 */
module Firmware {
  import opened Wrappers
  import opened Hid
  import opened Macros
  import opened Device
  import opened Loading

  /** Header text when no profile could be loaded. */
  const NO_MACRO_FILES: string := "NO MACRO FILES FOUND"

  /** One event of the key matrix: which key and whether it went down or up. */
  datatype KeyEvent = KeyEvent(keyNumber: nat, pressed: bool)

  /** What one loop iteration polls: the debounced button edge, the encoder reading, at most one key event. */
  datatype TickInput = TickInput(button: bool, encoder: int, event: Option<KeyEvent>)

  // ---------------------------------------------------------------- switching

  /** LED colour of slot i under a profile: the binding's colour, or off for an unbound slot. */
  function SlotColor(app: App, i: int): int {
    if 0 <= i < |app.macros| then app.macros[i].color else 0
  }

  /** Label of slot i under a profile: the binding's label, or empty for an unbound slot. */
  function SlotLabel(app: App, i: int): string {
    if 0 <= i < |app.macros| then app.macros[i].caption else ""
  }

  /** The device after switching to a profile. */
  function Switched(pad: PadState, app: App): (r: PadState)
    ensures |r.pixels| == |r.labels| == KEYS && r.header == app.name
    ensures forall i :: 0 <= i < KEYS && i < |app.macros| ==> r.pixels[i] == app.macros[i].color && r.labels[i] == app.macros[i].caption
    ensures forall i :: |app.macros| <= i < KEYS ==> r.pixels[i] == 0 && r.labels[i] == ""
    ensures |r.trace| == |pad.trace| + 3 && r.trace[..|pad.trace|] == pad.trace && r.trace[|pad.trace|] == ReleaseAll
  {
    PadState(
      seq(KEYS, i => SlotColor(app, i)),
      seq(KEYS, i => SlotLabel(app, i)),
      app.name,
      pad.trace + [ReleaseAll, ShowPixels, RefreshDisplay])
  }

  /**
   * After a switch every slot shows the profile's binding or nothing, the header shows the
   * profile's name, and the host is told to release all keys before the new colours and
   * labels are shown.
   */
  lemma SwitchedShowsApp(pad: PadState, app: App)
    ensures var r := Switched(pad, app);
      && |r.pixels| == |r.labels| == KEYS
      && (forall i :: 0 <= i < KEYS && i < |app.macros| ==>
            r.pixels[i] == app.macros[i].color && r.labels[i] == app.macros[i].caption)
      && (forall i :: |app.macros| <= i < KEYS ==> r.pixels[i] == 0 && r.labels[i] == "")
      && r.header == app.name
      && |r.trace| == |pad.trace| + 3 && r.trace[..|pad.trace|] == pad.trace
      && r.trace[|pad.trace|] == ReleaseAll
      && r.trace[|pad.trace| + 1] == ShowPixels && r.trace[|pad.trace| + 2] == RefreshDisplay
  {
  }

  /** `App.switch`: rewrite the 12 slots in place, then release all keys, show the LEDs, refresh the screen. */
  method Switch(pad: MacroPad, app: App)
    requires pad.Valid()
    modifies pad, pad.pixels, pad.labels
    ensures pad.View() == Switched(old(pad.View()), app)
  {
    pad.header := app.name;
    for i := 0 to KEYS
      modifies pad.pixels, pad.labels
      invariant forall j :: 0 <= j < i ==> pad.pixels[j] == SlotColor(app, j) && pad.labels[j] == SlotLabel(app, j)
    {
      if i < |app.macros| {
        pad.pixels[i] := app.macros[i].color;
        pad.labels[i] := app.macros[i].caption;
      } else {
        pad.pixels[i] := 0;
        pad.labels[i] := "";
      }
    }
    pad.trace := pad.trace + [ReleaseAll];
    pad.trace := pad.trace + [ShowPixels];
    pad.trace := pad.trace + [RefreshDisplay];
    assert pad.pixels[..] == seq(KEYS, i => SlotColor(app, i));
    assert pad.labels[..] == seq(KEYS, i => SlotLabel(app, i));
  }

  // ---------------------------------------------------------------- dispatching

  /** The device after the dispatcher handles one optional key event under a profile. */
  function Dispatched(pad: PadState, app: App, event: Option<KeyEvent>): (r: PadState)
    requires |pad.pixels| == KEYS
    ensures |r.pixels| == KEYS && r.labels == pad.labels && r.header == pad.header
    ensures forall j :: 0 <= j < KEYS && (event.None? || j != event.value.keyNumber) ==> r.pixels[j] == pad.pixels[j]
    ensures |r.trace| >= |pad.trace| && r.trace[..|pad.trace|] == pad.trace
  {
    match event
    case None => pad
    case Some(KeyEvent(key, pressed)) =>
      if key >= |app.macros| then pad
      else
        var binding := app.macros[key];
        if pressed then
          var lit := if key < KEYS then pad.(pixels := pad.pixels[key := WHITE], trace := pad.trace + [ShowPixels]) else pad;
          lit.(trace := lit.trace + PressTrace(binding.sequence))
        else
          var released := pad.(trace := pad.trace + ReleaseTrace(binding.sequence));
          if key < KEYS then released.(pixels := released.pixels[key := binding.color], trace := released.trace + [ShowPixels])
          else released
  }

  /** No event, or a key beyond the profile's bindings: nothing is sent and no LED changes. */
  lemma UnboundKeyIgnored(pad: PadState, app: App, event: Option<KeyEvent>)
    requires |pad.pixels| == KEYS
    requires event.None? || event.value.keyNumber >= |app.macros|
    ensures Dispatched(pad, app, event) == pad
  {
  }

  /**
   * A press of a bound key lights its LED white (keys with an LED only) before the sequence is
   * sent item by item; no other LED, label or the header changes.
   */
  lemma KeyPressed(pad: PadState, app: App, key: nat)
    requires |pad.pixels| == KEYS && key < |app.macros|
    ensures var r := Dispatched(pad, app, Some(KeyEvent(key, true)));
      var sent := PressTrace(app.macros[key].sequence);
      && r.labels == pad.labels && r.header == pad.header && |r.pixels| == KEYS
      && (forall j :: 0 <= j < KEYS && j != key ==> r.pixels[j] == pad.pixels[j])
      && (key < KEYS ==> r.pixels[key] == WHITE && r.trace == pad.trace + [ShowPixels] + sent)
      && (key >= KEYS ==> r.pixels == pad.pixels && r.trace == pad.trace + sent)
  {
  }

  /**
   * A release of a bound key sends the release scan of its sequence, then restores its LED to
   * the binding's colour (keys with an LED only); no other LED, label or the header changes.
   */
  lemma KeyReleased(pad: PadState, app: App, key: nat)
    requires |pad.pixels| == KEYS && key < |app.macros|
    ensures var r := Dispatched(pad, app, Some(KeyEvent(key, false)));
      var sent := ReleaseTrace(app.macros[key].sequence);
      && r.labels == pad.labels && r.header == pad.header && |r.pixels| == KEYS
      && (forall j :: 0 <= j < KEYS && j != key ==> r.pixels[j] == pad.pixels[j])
      && (key < KEYS ==> r.pixels[key] == app.macros[key].color && r.trace == pad.trace + sent + [ShowPixels])
      && (key >= KEYS ==> r.pixels == pad.pixels && r.trace == pad.trace + sent)
  {
  }

  /**
   * Pressing and releasing a bound key whose LED shows its binding's colour leaves the LEDs as
   * they were, and every key the press held is released again, in the same order.
   */
  lemma PressThenRelease(pad: PadState, app: App, key: nat)
    requires |pad.pixels| == KEYS && key < |app.macros| && key < KEYS
    requires pad.pixels[key] == app.macros[key].color
    ensures var down := Dispatched(pad, app, Some(KeyEvent(key, true)));
      var up := Dispatched(down, app, Some(KeyEvent(key, false)));
      var sequence := app.macros[key].sequence;
      && up.pixels == pad.pixels
      && up.trace == pad.trace + [ShowPixels] + PressTrace(sequence) + Releases(PressTrace(sequence)) + [ShowPixels]
  {
    ReleaseUndoesPress(app.macros[key].sequence);
    assert pad.pixels[key := WHITE][key := app.macros[key].color] == pad.pixels;
  }

  /** The press loop: each item of the sequence goes out in turn. */
  method SendPress(pad: MacroPad, sequence: seq<Item>)
    modifies pad`trace
    ensures pad.trace == old(pad.trace) + PressTrace(sequence)
  {
    for i := 0 to |sequence|
      invariant pad.trace == old(pad.trace) + PressTrace(sequence[..i])
    {
      assert sequence[..i + 1][..i] == sequence[..i];
      match sequence[i]
      case Code(c) =>
        if c >= 0 {
          pad.trace := pad.trace + [Press(c)];
        } else {
          pad.trace := pad.trace + [Release(-c)];
        }
      case Text(s) =>
        pad.trace := pad.trace + [Write(s)];
    }
    assert sequence[..|sequence|] == sequence;
  }

  /** The release loop: the sequence is scanned again and each non-negative code is released. */
  method SendRelease(pad: MacroPad, sequence: seq<Item>)
    modifies pad`trace
    ensures pad.trace == old(pad.trace) + ReleaseTrace(sequence)
  {
    for i := 0 to |sequence|
      invariant pad.trace == old(pad.trace) + ReleaseTrace(sequence[..i])
    {
      assert sequence[..i + 1][..i] == sequence[..i];
      var item := sequence[i];
      if item.Code? && item.code >= 0 {
        pad.trace := pad.trace + [Release(item.code)];
      }
    }
    assert sequence[..|sequence|] == sequence;
  }

  /** The dispatcher on the device: the early exit, then press or release handling. */
  method Dispatch(pad: MacroPad, app: App, event: Option<KeyEvent>)
    requires pad.Valid()
    modifies pad, pad.pixels
    ensures pad.View() == Dispatched(old(pad.View()), app, event)
  {
    if event.None? || event.value.keyNumber >= |app.macros| {
      return;
    }
    var key := event.value.keyNumber;
    var sequence := app.macros[key].sequence;
    if event.value.pressed {
      if key < KEYS {
        pad.pixels[key] := WHITE;
        pad.trace := pad.trace + [ShowPixels];
        assert pad.pixels[..] == old(pad.pixels[..])[key := WHITE];
      }
      SendPress(pad, sequence);
    } else {
      SendRelease(pad, sequence);
      if key < KEYS {
        pad.pixels[key] := app.macros[key].color;
        pad.trace := pad.trace + [ShowPixels];
        assert pad.pixels[..] == old(pad.pixels[..])[key := app.macros[key].color];
      }
    }
  }

  // ---------------------------------------------------------------- the main loop

  /** What an encoder reading sends, compared with the previous one: one arrow key tap or nothing. */
  function ArrowTrace(last: int, position: int): (trace: seq<Effect>)
    ensures trace == [] <==> last == position
    ensures Press(LEFT_ARROW) in trace <==> position < last
    ensures Press(RIGHT_ARROW) in trace <==> last < position
    ensures trace != [] ==> |trace| == 3 && trace[0] == RefreshDisplay && trace[1].Press? && trace[2] == Release(trace[1].key)
  {
    if last > position then [RefreshDisplay, Press(LEFT_ARROW), Release(LEFT_ARROW)]
    else if last < position then [RefreshDisplay, Press(RIGHT_ARROW), Release(RIGHT_ARROW)]
    else []
  }

  /** The rotation branch of a tick: refresh the screen and tap an arrow key when the reading moved. */
  method Rotate(pad: MacroPad, last: int, position: int)
    modifies pad`trace
    ensures pad.trace == old(pad.trace) + ArrowTrace(last, position)
  {
    if last > position {
      pad.trace := pad.trace + [RefreshDisplay];
      pad.trace := pad.trace + [Press(LEFT_ARROW)];
      pad.trace := pad.trace + [Release(LEFT_ARROW)];
    } else if last < position {
      pad.trace := pad.trace + [RefreshDisplay];
      pad.trace := pad.trace + [Press(RIGHT_ARROW)];
      pad.trace := pad.trace + [Release(RIGHT_ARROW)];
    }
  }

  /**
   * The whole firmware state as a value: the loaded profiles, whether start-up halted, the
   * click counter, the last encoder reading, the active profile and the device.
   */
  datatype Machine = Machine(apps: seq<App>, halted: bool, clicks: nat, position: int, appIndex: nat, pad: PadState)

  /** The invariant of the running firmware: the active profile is the click count modulo the profile count. */
  predicate Wf(m: Machine) {
    && |m.pad.pixels| == KEYS && |m.pad.labels| == KEYS
    && (!m.halted ==> |m.apps| > 0 && m.appIndex == m.clicks % |m.apps|)
  }

  /** One iteration of the main loop. A halted firmware spins and changes nothing. */
  function Step(m: Machine, input: TickInput): (r: Machine)
    requires Wf(m)
    ensures Wf(r) && r.apps == m.apps && r.halted == m.halted
    ensures m.halted ==> r == m
  {
    if m.halted then m
    else if input.button then
      var clicks := m.clicks + 1;
      var index := clicks % |m.apps|;
      m.(clicks := clicks, appIndex := index, pad := Switched(m.pad, m.apps[index]))
    else
      var pad := m.pad.(trace := m.pad.trace + ArrowTrace(m.position, input.encoder));
      m.(position := input.encoder, pad := Dispatched(pad, m.apps[m.appIndex], input.event))
  }

  /** A run of loop iterations. */
  function Steps(m: Machine, inputs: seq<TickInput>): (r: Machine)
    requires Wf(m)
    ensures Wf(r) && r.apps == m.apps && r.halted == m.halted
    decreases |inputs|
  {
    if inputs == [] then m else Steps(Step(m, inputs[0]), inputs[1..])
  }

  /** The firmware after start-up: either halted with the message on screen, or switched to profile 0. */
  function Boot(files: seq<string>, importer: string -> Option<App>): (r: Machine)
    ensures Wf(r) && r.apps == LoadedApps(files, importer)
    ensures r.halted <==> LoadedApps(files, importer) == []
    ensures r.clicks == 0 && r.appIndex == 0 && r.position == 0
    ensures r.halted ==> r.pad.header == NO_MACRO_FILES && r.pad.trace == [RefreshDisplay]
    ensures !r.halted ==> r.pad == Switched(Blank(), r.apps[0])
  {
    var apps := LoadedApps(files, importer);
    if apps == [] then
      Machine(apps, true, 0, 0, 0, Blank().(header := NO_MACRO_FILES, trace := [RefreshDisplay]))
    else
      Machine(apps, false, 0, 0, 0, Switched(Blank(), apps[0]))
  }

  /**
   * A tick with the button edge: the counter goes up by one, the active profile becomes the
   * counter modulo the profile count, and the tick does nothing but the switch: no arrow,
   * no key dispatch, the encoder reading is not taken.
   */
  lemma ButtonTick(m: Machine, input: TickInput)
    requires Wf(m) && !m.halted && input.button
    ensures var r := Step(m, input);
      && r.clicks == m.clicks + 1
      && r.appIndex == (m.clicks + 1) % |m.apps| && r.appIndex < |m.apps|
      && r.position == m.position
      && r.pad == Switched(m.pad, m.apps[r.appIndex])
      && r.pad.trace == m.pad.trace + [ReleaseAll, ShowPixels, RefreshDisplay]
  {
  }

  /**
   * A tick without the button edge and without a key event: a lower reading than the last one
   * taps the left arrow, a higher one the right arrow, however far the encoder turned, an equal
   * one sends nothing; LEDs, labels and the active profile stay.
   */
  lemma EncoderTick(m: Machine, input: TickInput)
    requires Wf(m) && !m.halted && !input.button && input.event.None?
    ensures var r := Step(m, input);
      && r.position == input.encoder && r.clicks == m.clicks && r.appIndex == m.appIndex
      && r.pad.pixels == m.pad.pixels && r.pad.labels == m.pad.labels && r.pad.header == m.pad.header
      && (input.encoder < m.position ==>
            r.pad.trace == m.pad.trace + [RefreshDisplay, Press(LEFT_ARROW), Release(LEFT_ARROW)])
      && (input.encoder > m.position ==>
            r.pad.trace == m.pad.trace + [RefreshDisplay, Press(RIGHT_ARROW), Release(RIGHT_ARROW)])
      && (input.encoder == m.position ==> r.pad == m.pad)
  {
  }

  /**
   * A tick without the button edge: the reading is recorded and the active profile stays; the
   * encoder's arrow tap comes first, then the key event's press or release trace under the
   * active profile's binding, each led or followed by the LED flush for keys below 12.
   */
  lemma KeyTick(m: Machine, input: TickInput)
    requires Wf(m) && !m.halted && !input.button
    ensures var r := Step(m, input);
      var arrowed := m.pad.trace + ArrowTrace(m.position, input.encoder);
      var macros := m.apps[m.appIndex].macros;
      && r.position == input.encoder && r.clicks == m.clicks && r.appIndex == m.appIndex
      && r.pad.labels == m.pad.labels && r.pad.header == m.pad.header
      && |r.pad.trace| >= |arrowed| && r.pad.trace[..|arrowed|] == arrowed
      && (input.event.Some? && input.event.value.keyNumber < |macros| ==>
            var key := input.event.value.keyNumber;
            var sequence := macros[key].sequence;
            var flush := if key < KEYS then [ShowPixels] else [];
            r.pad.trace == if input.event.value.pressed then arrowed + flush + PressTrace(sequence)
                           else arrowed + ReleaseTrace(sequence) + flush)
      && (input.event.None? || input.event.value.keyNumber >= |macros| ==> r.pad.trace == arrowed)
  {
    var arrowed := m.pad.(trace := m.pad.trace + ArrowTrace(m.position, input.encoder));
    var app := m.apps[m.appIndex];
    match input.event
    case None =>
    case Some(KeyEvent(key, pressed)) =>
      if key < |app.macros| {
        if pressed {
          KeyPressed(arrowed, app, key);
        } else {
          KeyReleased(arrowed, app, key);
        }
      }
  }

  /** Number of ticks whose button edge is set. */
  function Presses(inputs: seq<TickInput>): nat {
    if inputs == [] then 0 else (if inputs[0].button then 1 else 0) + Presses(inputs[1..])
  }

  /**
   * Over any run the click counter grows by the number of button edges and the active profile
   * is always that counter modulo the profile count, so it stays in range.
   */
  lemma {:induction false} StepsCountClicks(m: Machine, inputs: seq<TickInput>)
    requires Wf(m) && !m.halted
    ensures var r := Steps(m, inputs);
      && r.clicks == m.clicks + Presses(inputs)
      && r.appIndex == (m.clicks + Presses(inputs)) % |m.apps|
      && r.appIndex < |m.apps|
    decreases |inputs|
  {
    if inputs != [] {
      StepsCountClicks(Step(m, inputs[0]), inputs[1..]);
    }
  }

  /** A halted firmware never changes again: no host action, no LED or screen update. */
  lemma {:induction false} HaltedStaysSilent(m: Machine, inputs: seq<TickInput>)
    requires Wf(m) && m.halted
    ensures Steps(m, inputs) == m
    decreases |inputs|
  {
    if inputs != [] {
      HaltedStaysSilent(Step(m, inputs[0]), inputs[1..]);
    }
  }

  /**
   * When no listed ".py" name imports, start-up halts with the message in the header after a
   * single screen refresh, and no tick ever sends anything.
   */
  lemma BootWithoutProfiles(files: seq<string>, importer: string -> Option<App>)
    requires forall f :: f in files && IsPy(f) ==> importer(ModulePath(f)).None?
    ensures var m := Boot(files, importer);
      && m.halted && m.pad.header == NO_MACRO_FILES && m.pad.trace == [RefreshDisplay]
      && forall inputs :: Steps(m, inputs) == m
  {
    LoadedAppsEmpty(files, importer);
    var m := Boot(files, importer);
    forall inputs ensures Steps(m, inputs) == m {
      HaltedStaysSilent(m, inputs);
    }
  }

  /**
   * When a profile loads, start-up shows profile 0, and after any run the active profile is
   * the number of button edges so far modulo the number of profiles: k presses select k mod N.
   */
  lemma BootCycles(files: seq<string>, importer: string -> Option<App>, inputs: seq<TickInput>)
    requires LoadedApps(files, importer) != []
    ensures var m := Boot(files, importer);
      && !m.halted && m.appIndex == 0 && m.pad == Switched(Blank(), LoadedApps(files, importer)[0])
      && Steps(m, inputs).appIndex == Presses(inputs) % |LoadedApps(files, importer)|
  {
    StepsCountClicks(Boot(files, importer), inputs);
  }

  /** The firmware's module-level state and its device. */
  class Controller {
    const pad: MacroPad
    var apps: seq<App>
    var halted: bool
    var clickSwitch: nat
    var position: int
    var appIndex: nat

    function Model(): Machine
      reads this, pad, pad.pixels, pad.labels
    {
      Machine(apps, halted, clickSwitch, position, appIndex, pad.View())
    }

    ghost predicate Valid()
      reads this, pad, pad.pixels, pad.labels
    {
      pad.Valid() && Wf(Model())
    }

    /** Start-up: load the profiles; halt with a message if there are none, else show profile 0. */
    constructor (files: seq<string>, importer: string -> Option<App>)
      ensures Valid() && fresh(pad) && fresh(pad.pixels) && fresh(pad.labels)
      ensures Model() == Boot(files, importer)
    {
      pad := new MacroPad();
      var loaded := LoadApps(files, importer);
      apps := loaded;
      halted := loaded == [];
      clickSwitch, position, appIndex := 0, 0, 0;
      new;
      ghost var boot := Boot(files, importer);
      if apps == [] {
        pad.header := NO_MACRO_FILES;
        pad.trace := pad.trace + [RefreshDisplay];
        assert pad.View() == boot.pad;
      } else {
        Switch(pad, apps[0]);
        assert pad.View() == boot.pad;
      }
    }

    /** One iteration of the main loop. */
    method Tick(input: TickInput)
      requires Valid()
      modifies this, pad, pad.pixels, pad.labels
      ensures Valid() && Model() == Step(old(Model()), input)
    {
      if halted {
        return;
      }
      if input.button {
        clickSwitch := clickSwitch + 1;
        appIndex := clickSwitch % |apps|;
        Switch(pad, apps[appIndex]);
      } else {
        var last := position;
        position := input.encoder;
        Rotate(pad, last, position);
        Dispatch(pad, apps[appIndex], input.event);
      }
    }

    /** The main loop over a finite stretch of polls. */
    method RunTicks(inputs: seq<TickInput>)
      requires Valid()
      modifies this, pad, pad.pixels, pad.labels
      ensures Valid() && Model() == Steps(old(Model()), inputs)
    {
      for i := 0 to |inputs|
        invariant Valid()
        invariant Steps(Model(), inputs[i..]) == Steps(old(Model()), inputs)
      {
        assert inputs[i..][1..] == inputs[i + 1..];
        Tick(inputs[i]);
      }
    }
  }
}

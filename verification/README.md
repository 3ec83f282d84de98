# MACROPAD hotkeys firmware — a Dafny model

This project models the firmware of an Adafruit MACROPAD hotkey device: twelve lit keys, a
rotary encoder with a push button, and a small screen. At start-up the firmware loads
"application" profiles from the `/macros` folder. Each profile has a name and up to twelve
`(colour, label, key sequence)` bindings. The main loop then works in a fixed priority per
iteration:

- a debounced encoder-button press cycles to the next profile;
- otherwise an encoder turn taps the left or right arrow key;
- then at most one key event goes to the macro dispatcher.

A key sequence holds sign-encoded key codes (`c >= 0` holds key `c`, `c < 0` releases key `-c`)
and texts to type. On release the dispatcher scans the same sequence again and releases every
non-negative code.

Everything the firmware sends is one ordered trace of `Effect`s (module `Hid`): keyboard reports
to the host (`Press`, `Release`, `ReleaseAll`, `Write`) and the device's own flushes
(`ShowPixels`, `RefreshDisplay`). The LED buffer and the key labels are 12-slot arrays in the
class `Device.MacroPad`. The module-level state of the firmware (profiles, `clickSwitch`,
encoder `position`, `app_index`) lives in the class `Firmware.Controller`. Each operation is also
given as a function on values (`Switched`, `Dispatched`, `Step`, `Steps`, `Boot`). The methods are
proved equal to those functions, and the lemmas state the firmware's promises about them.

Modules: `Wrappers` (Option), `Hid` (key codes, trace entries), `Macros` (profiles, press and
release traces), `Loading` (sorting the listing, the `.py` filter, importing), `Device` (the LED,
label and header buffers and the trace), `Firmware` (switch, dispatch, tick, start-up), and
`LinuxFirefox` (the shipped profile as a constant).

Releasing a key bound to `[Ctrl, -Ctrl, "abc"]` sends `Release(Ctrl)`. The release scan of
code.py:171-173 does not skip codes that a negative marker already released during the press, so
`Ctrl` is released a second time (`Macros.ReleasedAgain`, `LinuxFirefox.GoogleTraces`).

## Model

| member | source | states |
|---|---|---|
| `Loading.LoadApps` | code.py:98-108 | the loading loop returns exactly the profile list of the sorted listing: each `.py` name is imported in turn, a failing import is skipped |
| `Loading.SortNamesCorrect` | code.py:100 | sorting the listing yields the same names, each as often as listed, in ascending Python string order |
| `Loading.SortNames` | code.py:100 | the sorted listing holds the listed names, each as often as listed |
| `Loading.NameLeTotal` | code.py:100 | Python string order is total, so any listing can be sorted |
| `Loading.NameLeTrans` | code.py:100 | Python string order is transitive |
| `Loading.IsPy` | code.py:102 | a name ending in `.py` is one that is some stem followed by `.py` |
| `Loading.ModulePath` | code.py:104 | the imported path is `/macros/` followed by the name with `.py` taken off, so appending `.py` to it gives back the name |
| `Loading.Loaded` | code.py:101-108 | the loop adds at most one profile per listed name, and none when no name ends in `.py` |
| `Loading.LoadedFromSources` | code.py:101-105 | the i-th loaded profile is what the import of the i-th surviving file name (suffix stripped) returned |
| `Loading.SourcesMember` | code.py:101-108 | a file name survives loading exactly when it is listed, ends in `.py`, and its import succeeds |
| `Loading.SourcesSorted` | code.py:99-105 | the surviving names keep the ascending order of the sorted listing |
| `Loading.LoadedAppsSpec` | code.py:98-108 | the profile list is, in ascending name order, the import of `/macros/<name without .py>` for exactly the listed `.py` names whose import succeeds |
| `Loading.LoadedAppsEmpty` | code.py:99-110 | no profile is loaded exactly when no listed `.py` name imports successfully |
| `Firmware.Switch` | code.py:36-49 | `App.switch` on the device: the LED and label arrays become the profile's slots, the header its name, and release-all, show and refresh follow, in that order |
| `Firmware.SwitchedShowsApp` | code.py:39-49 | after a switch, slot i shows binding i's colour and label when i is bound, else 0 and the empty label; the header is the profile name; `ReleaseAll` comes before `ShowPixels` and `RefreshDisplay` |
| `Firmware.Switched` | code.py:36-49 | a switch gives 12 LED and label slots, the profile's colours for bound slots and off and empty for the rest, the header the profile name, and appends to the trace, release-all first |
| `Firmware.Dispatched` | code.py:150-176 | dispatch changes no label and not the header, no LED but the event's key, and only appends to the trace |
| `Firmware.SendPress` | code.py:161-168 | the press loop appends the sequence's press trace to the device trace |
| `Firmware.SendRelease` | code.py:171-173 | the release loop appends the sequence's release trace to the device trace |
| `Firmware.Dispatch` | code.py:150-176 | the dispatcher on the device: early exit for no event or an unbound key, else the press or release handling below |
| `Firmware.UnboundKeyIgnored` | code.py:150-152 | no event, or a key number at or past the number of bindings, sends nothing and changes no LED |
| `Firmware.KeyPressed` | code.py:157-168 | on press, a key below 12 turns white and is shown before the sequence's press trace; a key from 12 up changes no LED; no other LED, no label and not the header change |
| `Firmware.KeyReleased` | code.py:169-176 | on release, the sequence's release trace is sent, then a key below 12 gets its binding's colour back and is shown; no other LED, no label and not the header change |
| `Firmware.PressThenRelease` | code.py:157-176 | pressing then releasing a key below 12 that shows its colour restores the LED buffer, and releases exactly the keys the press held, in press order |
| `Firmware.ArrowTrace` | code.py:139-148 | an equal reading sends nothing; otherwise refresh, then one arrow pressed and released: left exactly for a lower reading, right exactly for a higher one |
| `Firmware.Rotate` | code.py:136-148 | the rotation branch sends refresh plus one left-arrow tap for a lower reading, refresh plus one right-arrow tap for a higher one, nothing for an equal one |
| `Firmware.EncoderTick` | code.py:135-152 | a tick without the button and without a key event records the new reading; it taps the left arrow once for a lower reading and the right arrow once for a higher one, however large the change; an equal reading changes nothing |
| `Firmware.KeyTick` | code.py:135-176 | without the button, the reading is recorded and the profile stays; the arrow tap comes first, then for a bound key the white flush and press trace, or the release trace and flush, of the active profile's binding; an unbound or missing event adds nothing more |
| `Firmware.ButtonTick` | code.py:129-134 | a button tick increments the counter, sets the active profile to counter mod profile count (in range), and sends only the switch's release-all, show and refresh: no arrow, no dispatch, no new encoder reading |
| `Firmware.Step` | code.py:125-176 | one loop iteration keeps the invariant that the active profile is the click counter mod the profile count, keeps the profiles and the halt flag; a halted firmware does not change |
| `Firmware.Steps` | code.py:125-176 | any run of iterations keeps that invariant and the loaded profiles |
| `Firmware.Boot` | code.py:97-121 | start-up keeps the loaded profiles and halts exactly when none loaded; counter, profile index and reading start at 0; halted, the header shows the message after one refresh, else the device shows profile 0 |
| `Firmware.StepsCountClicks` | code.py:116-134 | after any run the counter has grown by the number of button edges and the active profile is the counter mod the profile count, so always in `[0, N)` |
| `Firmware.HaltedStaysSilent` | code.py:110-114 | once halted, no run changes anything: no host action, no LED or screen update |
| `Firmware.BootWithoutProfiles` | code.py:98-114 | when no `.py` name imports, the header shows `NO MACRO FILES FOUND` after one refresh, and no later tick ever sends anything |
| `Firmware.BootCycles` | code.py:116-134 | when profiles load, start-up shows profile 0, and after k button presses the active profile is k mod N |
| `Firmware.Controller.constructor` | code.py:98-121 | start-up on the device equals `Boot`: load, then halt with the message or switch to profile 0 |
| `Firmware.Controller.Tick` | code.py:125-176 | one loop iteration on the device equals `Step` and keeps the invariant |
| `Firmware.Controller.RunTicks` | code.py:125-176 | a stretch of loop iterations on the device equals `Steps` |
| `Macros.Chars` | macros/linux-firefox.py:23 | a sequence given as a bare string becomes one one-character text per character, in order |
| `Macros.PressAction` | code.py:161-168 | an item presses exactly when it is a code >= 0, releases exactly when a code < 0 (the positive key `-c`), writes exactly when a text |
| `Macros.PressTrace` | code.py:161-168 | a press trace has one keyboard action per item and nothing but presses, releases and writes |
| `Macros.ReleaseTrace` | code.py:171-173 | a release trace has at most one entry per item, each the release of a non-negative code |
| `Macros.PressTraceAt` | code.py:161-168 | a press emits exactly one action per item, in listed order: press for a code >= 0, release of `-c` for a code c < 0, write for a text |
| `Macros.PressTraceIsHostOnly` | code.py:161-168 | a press trace holds only keyboard actions, and never a release-all |
| `Macros.ReleaseUndoesPress` | code.py:170-173 | the release trace is exactly the releases of the keys the press trace pressed, in the same order |
| `Macros.ReleaseTraceMember` | code.py:171-173 | the release trace holds only releases of non-negative codes of the sequence, and releases every one of them; texts and negative markers add nothing |
| `Macros.HoldsReleaseInPressOrder` | code.py:161-173 | for a sequence of holds only, the keys go down and come up in the same, not reversed, order |
| `Macros.ReleasedAgain` | code.py:161-173 | `[c, -c, text]` presses `c`, releases `c`, writes the text; its release releases `c` again |
| `LinuxFirefox.ProfileShape` | macros/linux-firefox.py:11-36 | the constant `LinuxFirefox.Profile` transcribes the `app` dict; it has exactly twelve bindings, each with a colour in `0..0xFFFFFF` |
| `LinuxFirefox.GoogleTraces` | macros/linux-firefox.py:31-32 | pressing "Google" sends Control down, "t", Control up, then the search text; releasing it sends Control up |
| `LinuxFirefox.DownTraces` | macros/linux-firefox.py:23 | "Down" is the bare string `' '`: a press types one space, a release sends nothing |
| `LinuxFirefox.PrevTabTraces` | macros/linux-firefox.py:21 | "< Tab" presses Control, Shift, Tab and releases them in that same order |
| `LinuxFirefox.GooglePressOnDevice` | macros/linux-firefox.py:31-32 | on the device, pressing "Google" (key 9) whitens its LED and shows it before the four actions |
| `LinuxFirefox.SwitchToProfile` | macros/linux-firefox.py:11-36 | after switching to the profile, the header reads `Linux Firefox` and each of the 12 keys shows its binding's colour and label |

## Left out

- The displayio layout of the labels, header bar and header label (code.py:62-95). It is rendering with floating-point anchor positions. Only the label texts and the header text are modelled.
- The intro image and the two-second pause at boot (code.py:58-59).
- `os.listdir` and `__import__` (code.py:99-104). The listing is a parameter. Building a profile from a module (`__import__` plus `App(module.app)`) is an oracle from module path to an optional profile; `None` stands for every exception the `except` clause catches. Exceptions outside that list, which would stop the firmware, are not modelled.
- `files.sort()` sorts the listing in place; the model sorts it as a value (insertion sort, Python string order).
- The MacroPad library: the encoder-switch debouncer, the key-event queue and the encoder counter. Each tick takes the debounced press flag, the encoder reading and an optional key event as inputs. `last_encoder_switch` (code.py:119) is read but never used, so it is not modelled.
- `last_position` starts as `None` (code.py:118). It is always overwritten with `position` before any comparison, so the model keeps only `position`, starting at 0.
- `keyboard_layout.write`'s translation of text into keystrokes. `Write(text)` is one opaque trace entry.
- The numeric values of the key codes. The model uses the HID usage IDs as positive constants; no proof depends on the values.
- The `print` calls (code.py:131, 140, 145). They are debug output.
- The endless `while True` loops (code.py:113-114, 125). The halt is a `halted` flag under which a tick changes nothing. The main loop is modelled one tick at a time (`Step`, `Controller.Tick`) and over finite runs (`Steps`, `Controller.RunTicks`).
- The import oracle returns only well-formed profiles: a name and bindings that are each a (colour, label, sequence) triple. `App(module.app)` (code.py:32-34) accepts any `app` dict with `'name'` and `'macros'` keys. A binding of another shape raises `IndexError` or `TypeError` outside the `try`, in the switch (code.py:42-43) or in dispatch (code.py:156, 175), and stops the firmware. Such profiles are not modelled.
- Sequence entries that are neither an int nor a string, and a bare int given as a sequence (a runtime `TypeError`), are not modelled. A sequence given as a bare string becomes its characters (`Macros.Chars`).
- LED colours are stored as given. The NeoPixel library's handling of values outside 24 bits is not modelled.
- The label field of a binding is called `caption`, because `label` is a Dafny keyword.

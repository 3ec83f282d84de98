/** The "Linux Firefox" profile of the macros folder, as a constant, and the traces of its keys. */
module LinuxFirefox {
  import opened Wrappers
  import opened Hid
  import opened Macros
  import opened Device
  import opened Firmware

  const Profile: App := App("Linux Firefox", [
    // 1st row
    Binding(0x000040, "< Prev", [Code(ALT), Code(LEFT_ARROW)]),
    Binding(0x000040, "Next >", [Code(ALT), Code(RIGHT_ARROW)]),
    Binding(0xa600ff, "Up", [Code(SHIFT), Text(" ")]),
    // 2nd row
    Binding(0xff9900, "< Tab", [Code(CONTROL), Code(SHIFT), Code(TAB)]),
    Binding(0xff9900, "Tab >", [Code(CONTROL), Code(TAB)]),
    Binding(0xa600ff, "Down", Chars(" ")),
    // 3rd row
    Binding(0x101010, "Reload", [Code(CONTROL), Text("r")]),
    Binding(0x101010, "Home", [Code(CONTROL), Text("h")]),
    Binding(0x101010, "Private", [Code(CONTROL), Code(SHIFT), Text("p")]),
    // 4th row
    Binding(0x101010, "Google", [Code(CONTROL), Text("t"), Code(-CONTROL), Text("zzz<google<fr\n")]),
    Binding(0xff0000, "Dev", [Code(F12)]),
    Binding(0x101010, "Mail", [Code(CONTROL), Text("t"), Code(-CONTROL), Text("zzz<;qil<google<fr\n")])
  ])

  /** Twelve bindings, each with a 24-bit colour: every key 0..11 is bound and has an LED colour. */
  lemma ProfileShape()
    ensures |Profile.macros| == KEYS
    ensures forall b :: b in Profile.macros ==> 0 <= b.color <= 0xFFFFFF
  {
  }

  /** "Google": hold Control, type "t", let Control go, type the search; the release lets Control go again. */
  lemma GoogleTraces()
    ensures Profile.macros[9].caption == "Google"
    ensures PressTrace(Profile.macros[9].sequence)
      == [Press(CONTROL), Write("t"), Release(CONTROL), Write("zzz<google<fr\n")]
    ensures ReleaseTrace(Profile.macros[9].sequence) == [Release(CONTROL)]
  {
    var s := Profile.macros[9].sequence;
    PressTraceAt(s);
    assert s[..3] == [Code(CONTROL), Text("t"), Code(-CONTROL)];
    assert s[..3][..2] == [Code(CONTROL), Text("t")];
    assert s[..3][..2][..1] == [Code(CONTROL)];
    assert ReleaseTrace(s[..3][..2][..1]) == [Release(CONTROL)];
    assert ReleaseTrace(s[..3][..2]) == [Release(CONTROL)];
    assert ReleaseTrace(s[..3]) == [Release(CONTROL)];
  }

  /** "Down" is the bare string " ": a press types one space, a release sends nothing. */
  lemma DownTraces()
    ensures Profile.macros[5].caption == "Down"
    ensures PressTrace(Profile.macros[5].sequence) == [Write(" ")]
    ensures ReleaseTrace(Profile.macros[5].sequence) == []
  {
    assert Profile.macros[5].sequence == [Text(" ")];
  }

  /** "< Tab": Control, Shift, Tab go down in that order and come up in that same order. */
  lemma PrevTabTraces()
    ensures Profile.macros[3].caption == "< Tab"
    ensures PressTrace(Profile.macros[3].sequence) == [Press(CONTROL), Press(SHIFT), Press(TAB)]
    ensures ReleaseTrace(Profile.macros[3].sequence) == [Release(CONTROL), Release(SHIFT), Release(TAB)]
  {
    HoldsReleaseInPressOrder(Profile.macros[3].sequence);
  }

  /** Pressing "Google" on the device: its LED turns white and shows, then the four actions go out. */
  lemma GooglePressOnDevice(pad: PadState)
    requires |pad.pixels| == KEYS
    ensures var r := Dispatched(pad, Profile, Some(KeyEvent(9, true)));
      && r.pixels == pad.pixels[9 := WHITE]
      && r.trace == pad.trace + [ShowPixels, Press(CONTROL), Write("t"), Release(CONTROL), Write("zzz<google<fr\n")]
  {
    GoogleTraces();
  }

  /** After switching to this profile the header names it and every key shows its binding's colour and label. */
  lemma SwitchToProfile(pad: PadState)
    ensures var r := Switched(pad, Profile);
      && r.header == "Linux Firefox"
      && |r.pixels| == |r.labels| == KEYS
      && forall i :: 0 <= i < KEYS ==>
           r.pixels[i] == Profile.macros[i].color && r.labels[i] == Profile.macros[i].caption
  {
    SwitchedShowsApp(pad, Profile);
  }
}

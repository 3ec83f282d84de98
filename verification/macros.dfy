/**
 * A profile ("app") and the traces its key sequences produce on press and on release.
 * A sequence item is a sign-encoded key code or a text to type.
 */
module Macros {
  import opened Hid

  /** An entry of a key sequence: `Code(c)` with c >= 0 holds key c, with c < 0 releases key -c. */
  datatype Item = Code(code: int) | Text(text: string)

  /** One key slot of a profile: LED colour, label text (`caption`; `label` is a Dafny keyword) and key sequence. */
  datatype Binding = Binding(color: int, caption: string, sequence: seq<Item>)

  /** A loaded profile: the display name and the bindings of keys 0, 1, ... in order. */
  datatype App = App(name: string, macros: seq<Binding>)

  /** A sequence written as a bare string is iterated character by character. */
  function Chars(s: string): (items: seq<Item>)
    ensures |items| == |s|
    ensures forall i :: 0 <= i < |items| ==> items[i].Text? && items[i].text == [s[i]]
  {
    seq(|s|, i requires 0 <= i < |s| => Text([s[i]]))
  }

  /** What one item does when its key goes down. */
  function PressAction(item: Item): (e: Effect)
    ensures e.Press? <==> item.Code? && item.code >= 0
    ensures e.Release? <==> item.Code? && item.code < 0
    ensures e.Write? <==> item.Text?
    ensures e.Press? || e.Release? ==> e.key == if item.code >= 0 then item.code else -item.code
    ensures e.Release? ==> e.key > 0
    ensures e.Write? ==> e.text == item.text
  {
    match item
    case Code(c) => if c >= 0 then Press(c) else Release(-c)
    case Text(s) => Write(s)
  }

  /** The trace of a key press: each item of the sequence in turn. */
  function PressTrace(sequence: seq<Item>): (trace: seq<Effect>)
    ensures |trace| == |sequence|
    ensures forall e :: e in trace ==> e.Press? || e.Release? || e.Write?
  {
    if |sequence| == 0 then []
    else PressTrace(sequence[..|sequence| - 1]) + [PressAction(sequence[|sequence| - 1])]
  }

  /** The trace of a key release: the sequence is scanned again and every non-negative code is released. */
  function ReleaseTrace(sequence: seq<Item>): (trace: seq<Effect>)
    ensures |trace| <= |sequence|
    ensures forall e :: e in trace ==> e.Release? && e.key >= 0
  {
    if |sequence| == 0 then []
    else
      var last := sequence[|sequence| - 1];
      ReleaseTrace(sequence[..|sequence| - 1])
        + (if last.Code? && last.code >= 0 then [Release(last.code)] else [])
  }

  /** The releases that undo the presses of a trace, in the order of the presses. */
  function Releases(trace: seq<Effect>): seq<Effect> {
    if |trace| == 0 then []
    else
      var last := trace[|trace| - 1];
      Releases(trace[..|trace| - 1]) + (if last.Press? then [Release(last.key)] else [])
  }

  /** A press emits exactly one action per item, in the listed order. */
  lemma {:induction false} PressTraceAt(sequence: seq<Item>)
    ensures |PressTrace(sequence)| == |sequence|
    ensures forall i :: 0 <= i < |sequence| ==> PressTrace(sequence)[i] == PressAction(sequence[i])
  {
    if |sequence| > 0 {
      PressTraceAt(sequence[..|sequence| - 1]);
    }
  }

  /** A press trace holds only host actions: no release-all and no flush. */
  lemma PressTraceIsHostOnly(sequence: seq<Item>)
    ensures forall e :: e in PressTrace(sequence) ==> IsHostAction(e) && !e.ReleaseAll?
  {
    PressTraceAt(sequence);
  }

  /** The release trace releases exactly the keys the press trace pressed, in the same order. */
  lemma {:induction false} ReleaseUndoesPress(sequence: seq<Item>)
    ensures ReleaseTrace(sequence) == Releases(PressTrace(sequence))
  {
    if |sequence| > 0 {
      var front := sequence[..|sequence| - 1];
      ReleaseUndoesPress(front);
      assert PressTrace(sequence)[..|PressTrace(sequence)| - 1] == PressTrace(front);
    }
  }

  /**
   * The release trace is made of releases of the non-negative codes of the sequence, and every
   * such code is released; texts and negative markers add nothing.
   */
  lemma {:induction false} ReleaseTraceMember(sequence: seq<Item>)
    ensures forall e :: e in ReleaseTrace(sequence) ==> e.Release? && e.key >= 0 && Code(e.key) in sequence
    ensures forall c :: c >= 0 && Code(c) in sequence ==> Release(c) in ReleaseTrace(sequence)
  {
    if |sequence| > 0 {
      var front := sequence[..|sequence| - 1];
      ReleaseTraceMember(front);
      assert sequence == front + [sequence[|sequence| - 1]];
    }
  }

  /**
   * For a sequence of holds only, the press trace presses each key and the release trace
   * releases each key, both in the original order (the release is not reversed).
   */
  lemma {:induction false} HoldsReleaseInPressOrder(sequence: seq<Item>)
    requires forall i :: 0 <= i < |sequence| ==> sequence[i].Code? && sequence[i].code >= 0
    ensures |PressTrace(sequence)| == |ReleaseTrace(sequence)| == |sequence|
    ensures forall i :: 0 <= i < |sequence| ==>
      PressTrace(sequence)[i] == Press(sequence[i].code) && ReleaseTrace(sequence)[i] == Release(sequence[i].code)
  {
    if |sequence| > 0 {
      HoldsReleaseInPressOrder(sequence[..|sequence| - 1]);
    }
  }

  /**
   * A key held and then released mid-sequence is released a second time on key release:
   * the release scan does not skip codes that a negative marker already released.
   */
  lemma ReleasedAgain(c: int, text: string)
    requires c > 0
    ensures PressTrace([Code(c), Code(-c), Text(text)]) == [Press(c), Release(c), Write(text)]
    ensures ReleaseTrace([Code(c), Code(-c), Text(text)]) == [Release(c)]
  {
    var s := [Code(c), Code(-c), Text(text)];
    PressTraceAt(s);
    assert s[..2] == [Code(c), Code(-c)] && s[..2][..1] == [Code(c)] && s[..2][..1][..0] == [];
    assert ReleaseTrace(s[..2][..1]) == [Release(c)];
    assert ReleaseTrace(s[..2]) == [Release(c)];
  }
}

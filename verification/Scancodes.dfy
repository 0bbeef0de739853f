/** What each key does, by its scancode: the layout of the character keys, the arrows, the modifiers,
    Enter, Ctrl-L and the keys that choose a tty. */
module Scancodes {
  import opened Basics
  import opened Editor

  // ---- Character keys ----

  /** The rows of the keyboard, without and with shift, while caps lock is off. */
  lemma LayoutPlain(i: nat)
    ensures i < 12 ==> KeyChar(false, false, 0x02 + i) == "1234567890-="[i] as int
    ensures i < 12 ==> KeyChar(false, false, 0x10 + i) == "qwertyuiop[]"[i] as int
    ensures i < 12 ==> KeyChar(false, false, 0x1E + i) == "asdfghjkl;'`"[i] as int
    ensures i < 11 ==> KeyChar(false, false, 0x2B + i) == "\\zxcvbnm,./"[i] as int
    ensures i < 12 ==> KeyChar(true, false, 0x02 + i) == "!@#$%^&*()_+"[i] as int
    ensures i < 12 ==> KeyChar(true, false, 0x10 + i) == "QWERTYUIOP{}"[i] as int
    ensures i < 12 ==> KeyChar(true, false, 0x1E + i) == "ASDFGHJKL:\"~"[i] as int
    ensures i < 11 ==> KeyChar(true, false, 0x2B + i) == "|ZXCVBNM<>?"[i] as int
    ensures KeyChar(false, false, 0x39) == KeyChar(true, false, 0x39) == 32
  {
  }

  /** Caps lock swaps the case of the letters and does nothing to the other keys. */
  lemma LayoutCaps(i: nat)
    ensures i < 12 ==> KeyChar(false, true, 0x02 + i) == "1234567890-="[i] as int
    ensures i < 12 ==> KeyChar(false, true, 0x10 + i) == "QWERTYUIOP[]"[i] as int
    ensures i < 12 ==> KeyChar(false, true, 0x1E + i) == "ASDFGHJKL;'`"[i] as int
    ensures i < 11 ==> KeyChar(false, true, 0x2B + i) == "\\ZXCVBNM,./"[i] as int
    ensures i < 12 ==> KeyChar(true, true, 0x02 + i) == "!@#$%^&*()_+"[i] as int
    ensures i < 12 ==> KeyChar(true, true, 0x10 + i) == "qwertyuiop{}"[i] as int
    ensures i < 12 ==> KeyChar(true, true, 0x1E + i) == "asdfghjkl:\"~"[i] as int
    ensures i < 11 ==> KeyChar(true, true, 0x2B + i) == "|zxcvbnm<>?"[i] as int
    ensures KeyChar(false, true, 0x39) == KeyChar(true, true, 0x39) == 32
  {
  }

  /** Only those keys are character keys. */
  lemma CharKeys(code: byte)
    ensures IsCharKey(code) <==> code in {
      0x02, 0x03, 0x04, 0x05, 0x06, 0x07, 0x08, 0x09, 0x0A, 0x0B, 0x0C, 0x0D,
      0x10, 0x11, 0x12, 0x13, 0x14, 0x15, 0x16, 0x17, 0x18, 0x19, 0x1A, 0x1B,
      0x1E, 0x1F, 0x20, 0x21, 0x22, 0x23, 0x24, 0x25, 0x26, 0x27, 0x28, 0x29,
      0x2B, 0x2C, 0x2D, 0x2E, 0x2F, 0x30, 0x31, 0x32, 0x33, 0x34, 0x35, 0x39}
  {
  }

  /** A character key puts its character in front of the cursor, while there is room and Ctrl is up. */
  lemma CharacterInserted(l: Line, code: byte, next: byte)
    requires WfLine(l) && IsCharKey(code) && !l.flags.ctrl
    ensures var r := Key(l, code, next);
            if |l.text| < 1023
            then && r.text == l.text[..l.cursor] + [KeyChar(l.flags.shift, l.flags.caps, code)] + l.text[l.cursor..]
                 && r == l.(text := r.text, cursor := l.cursor + 1)
            else r == l
  {
  }

  // ---- Arrows, backspace and delete ----

  /** The left arrow and then delete do what backspace does. */
  lemma LeftDeleteIsBackspace(l: Line, next: byte)
    requires WfLine(l) && l.cursor > 0
    ensures WfLine(Key(l, 0xE0, 0x4B)) && Key(Key(l, 0xE0, 0x4B), 0x53, next) == Key(l, 0x0E, next)
  {
  }

  /** Backspace takes out the character in front of the cursor, delete the one behind it. */
  lemma Erases(l: Line, next: byte)
    requires WfLine(l)
    ensures Key(l, 0x0E, next) == if l.cursor == 0 then l
                                  else l.(text := l.text[..l.cursor - 1] + l.text[l.cursor..], cursor := l.cursor - 1)
    ensures Key(l, 0x53, next) == if l.cursor == |l.text| then l
                                  else l.(text := l.text[..l.cursor] + l.text[l.cursor + 1..])
  {
  }

  /** The right arrow takes back the left one except at the start of a line with text, and the left arrow
      the right one except at the end. */
  lemma ArrowsUndo(l: Line)
    requires WfLine(l)
    ensures WfLine(Key(l, 0xE0, 0x4B)) && WfLine(Key(l, 0xE0, 0x4D))
    ensures Key(Key(l, 0xE0, 0x4B), 0xE0, 0x4D) == l <==> l.cursor > 0 || l.text == []
    ensures Key(Key(l, 0xE0, 0x4D), 0xE0, 0x4B) == l <==> l.cursor < |l.text| || l.text == []
  {
  }

  /** The line after `m` left arrows. */
  function Lefts(l: Line, m: nat): (r: Line)
    requires WfLine(l)
    ensures WfLine(r)
  {
    if m == 0 then l
    else
      KeyKeepsWf(Lefts(l, m - 1), 0xE0, 0x4B);
      Key(Lefts(l, m - 1), 0xE0, 0x4B)
  }

  function Rights(l: Line, m: nat): (r: Line)
    requires WfLine(l)
    ensures WfLine(r)
  {
    if m == 0 then l
    else
      KeyKeepsWf(Rights(l, m - 1), 0xE0, 0x4D);
      Key(Rights(l, m - 1), 0xE0, 0x4D)
  }

  /** Arrows move the cursor, as far as the line goes, and change nothing else. */
  lemma {:induction false} ArrowsMove(l: Line, m: nat)
    requires WfLine(l)
    ensures Lefts(l, m) == l.(cursor := Max(0, l.cursor - m))
    ensures Rights(l, m) == l.(cursor := Min(|l.text|, l.cursor + m))
    decreases m
  {
    if m > 0 {
      ArrowsMove(l, m - 1);
    }
  }

  /** A character typed after some left arrows stands that far in front of where the cursor was. */
  lemma InsertsAfterArrows(l: Line, m: nat, code: byte)
    requires WfLine(l) && IsCharKey(code) && !l.flags.ctrl && |l.text| < 1023
    ensures var at, c := Max(0, l.cursor - m), KeyChar(l.flags.shift, l.flags.caps, code);
            Key(Lefts(l, m), code, 0) == l.(text := l.text[..at] + [c] + l.text[at..], cursor := at + 1)
  {
    ArrowsMove(l, m);
  }

  // ---- Enter, modifiers, Ctrl-L ----

  /** Enter makes the line ready for its reader, and changes nothing else. */
  lemma EnterMakesReady(l: Line, next: byte)
    requires WfLine(l)
    ensures Key(l, 0x1C, next) == l.(ready := true)
  {
  }

  /** The modifiers change their own flag and nothing else; the right Ctrl key comes behind 0xE0. */
  lemma ModifiersSetFlags(l: Line, next: byte)
    requires WfLine(l)
    ensures Key(l, 0x3A, next) == l.(flags := l.flags.(caps := !l.flags.caps))
    ensures Key(l, 0x2A, next) == Key(l, 0x36, next) == l.(flags := l.flags.(shift := true))
    ensures Key(l, 0xAA, next) == Key(l, 0xB6, next) == l.(flags := l.flags.(shift := false))
    ensures Key(l, 0x1D, next) == Key(l, 0xE0, 0x1D) == l.(flags := l.flags.(ctrl := true))
    ensures Key(l, 0x9D, next) == Key(l, 0xE0, 0x9D) == l.(flags := l.flags.(ctrl := false))
    ensures Key(l, 0x38, next) == l.(flags := l.flags.(alt := true))
    ensures Key(l, 0xB8, next) == l.(flags := l.flags.(alt := false))
  {
  }

  /** Ctrl-L hands an empty line to the reader and lets Ctrl go. */
  lemma CtrlLClears(l: Line, next: byte)
    requires WfLine(l) && l.flags.ctrl
    ensures Key(l, 0x26, next) == Line([], 0, l.flags.(ctrl := false), true)
  {
  }

  /** No other code changes the line: a character key does nothing under Ctrl, and L is the only letter
      that means something there. */
  lemma OtherCodesIgnored(l: Line, code: byte, next: byte)
    requires WfLine(l)
    requires code !in {0x1C, 0x0E, 0x53, 0x3A, 0x2A, 0x36, 0xAA, 0xB6, 0x1D, 0x9D, 0x38, 0xB8}
    requires !(IsCharKey(code) && !l.flags.ctrl) && !(code == 0x26 && l.flags.ctrl)
    requires code == 0xE0 ==> next !in {0x4B, 0x4D, 0x1D, 0x9D}
    ensures Key(l, code, next) == l
  {
  }

  // ---- The active tty ----

  /** Alt with F1, F2 or F3 makes the first, second or third tty the active one and touches no line;
      without Alt those keys do nothing. Every other key goes to the active line alone. */
  lemma FunctionKeysChooseTty(d: Desk, next: byte)
    requires WfDesk(d)
    ensures var alt := d.lines[d.active].flags.alt;
            && Press(d, 0x3B, next) == Desk(d.lines, if alt then 0 else d.active)
            && Press(d, 0x3C, next) == Desk(d.lines, if alt then 1 else d.active)
            && Press(d, 0x3D, next) == Desk(d.lines, if alt then 2 else d.active)
    ensures forall code: byte :: code !in {0x3B, 0x3C, 0x3D} ==>
              Press(d, code, next) == Desk(d.lines[d.active := Key(d.lines[d.active], code, next)], d.active)
  {
  }
}

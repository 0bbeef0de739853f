/** The command-line editor that the keyboard driver (student-distrib/keyboard.c) implements: a line
    with a cursor per tty, driven by scancodes. */
module Editor {
  import opened Basics
  import opened Screen

  const MAX_SIZE := 1024

  const MAKE_ENTER := 0x1C
  const MAKE_BKSP := 0x0E
  const MAKE_DELETE := 0x53
  const MAKE_CAPS := 0x3A
  const MAKE_L_SHFT := 0x2A
  const MAKE_R_SHFT := 0x36
  const BREAK_L_SHFT := 0xAA
  const BREAK_R_SHFT := 0xB6
  const MAKE_L_CTRL := 0x1D
  const BREAK_L_CTRL := 0x9D
  const MAKE_L_ALT := 0x38
  const BREAK_L_ALT := 0xB8
  const EXTRAS := 0xE0
  const MAKE_L_ARROW := 0x4B
  const MAKE_R_ARROW := 0x4D
  const MAKE_L := 0x26
  const MAKE_F1 := 0x3B
  const MAKE_F3 := 0x3D

  // ---- Characters ----

  /** The four rows of character keys and the space bar. */
  predicate IsCharKey(code: byte) {
    || 0x02 <= code <= 0x0D || 0x10 <= code <= 0x1B || 0x1E <= code <= 0x29 || 0x2B <= code <= 0x35
    || code == 0x39
  }

  predicate Graphic(text: string) { forall i :: 0 <= i < |text| ==> ' ' <= text[i] <= '~' }

  function DigitRow(shift: bool): (r: string)
    ensures |r| == 12 && Graphic(r)
  {
    if shift then "!@#$%^&*()_+" else "1234567890-="
  }

  function TopRow(upper: bool, shift: bool): (r: string)
    ensures |r| == 12 && Graphic(r)
  {
    if upper then (if shift then "QWERTYUIOP{}" else "QWERTYUIOP[]")
    else (if shift then "qwertyuiop{}" else "qwertyuiop[]")
  }

  function HomeRow(upper: bool, shift: bool): (r: string)
    ensures |r| == 12 && Graphic(r)
  {
    if upper then (if shift then "ASDFGHJKL:\"~" else "ASDFGHJKL;'`")
    else (if shift then "asdfghjkl:\"~" else "asdfghjkl;'`")
  }

  function BottomRow(upper: bool, shift: bool): (r: string)
    ensures |r| == 11 && Graphic(r)
  {
    if upper then (if shift then "|ZXCVBNM<>?" else "\\ZXCVBNM,./")
    else (if shift then "|zxcvbnm<>?" else "\\zxcvbnm,./")
  }

  /** kbd_chars: letters follow shift and caps lock together, the other keys follow shift alone. */
  function KeyChar(shift: bool, caps: bool, code: byte): (c: byte)
    requires IsCharKey(code)
    ensures 32 <= c <= 126
  {
    var upper := shift != caps;
    var key := if code <= 0x0D then DigitRow(shift)[code - 0x02]
               else if code <= 0x1B then TopRow(upper, shift)[code - 0x10]
               else if code <= 0x29 then HomeRow(upper, shift)[code - 0x1E]
               else if code <= 0x35 then BottomRow(upper, shift)[code - 0x2B]
               else ' ';
    key as int
  }

  // ---- The editor ----

  datatype Flags = Flags(shift: bool, caps: bool, ctrl: bool, alt: bool)

  datatype Line = Line(text: seq<byte>, cursor: nat, flags: Flags, ready: bool)

  const EMPTY := Line([], 0, Flags(false, false, false, false), false)

  predicate WfLine(l: Line) {
    Typed(l.text) && l.cursor <= |l.text|
  }

  function Insert(l: Line, c: byte): Line
    requires WfLine(l)
  {
    if |l.text| + 1 >= MAX_SIZE then l
    else l.(text := l.text[..l.cursor] + [c] + l.text[l.cursor..], cursor := l.cursor + 1)
  }

  function Backspace(l: Line): Line
    requires WfLine(l)
  {
    if l.cursor == 0 then l else l.(text := Without(l.text, l.cursor - 1), cursor := l.cursor - 1)
  }

  function Delete(l: Line): Line
    requires WfLine(l)
  {
    if l.cursor == |l.text| then l else l.(text := Without(l.text, l.cursor))
  }

  function Left(l: Line): Line { if l.cursor > 0 then l.(cursor := l.cursor - 1) else l }

  function Right(l: Line): Line { if l.cursor < |l.text| then l.(cursor := l.cursor + 1) else l }

  /** The key that follows the 0xE0 prefix. */
  function ExtraKey(l: Line, next: byte): Line {
    if next == MAKE_L_ARROW && l.cursor > 0 then Left(l)
    else if next == MAKE_R_ARROW && l.cursor < |l.text| then Right(l)
    else if next == MAKE_L_CTRL then l.(flags := l.flags.(ctrl := true))
    else if next == BREAK_L_CTRL then l.(flags := l.flags.(ctrl := false))
    else l
  }

  /** What one scancode does to the active line; `next` is the code behind a 0xE0 prefix. */
  function Key(l: Line, code: byte, next: byte): Line
    requires WfLine(l)
  {
    var f := l.flags;
    if !f.ctrl && IsCharKey(code) then Insert(l, KeyChar(f.shift, f.caps, code))
    else if code == MAKE_ENTER then l.(ready := true)
    else if code == MAKE_BKSP then Backspace(l)
    else if code == MAKE_DELETE then Delete(l)
    else if code == MAKE_CAPS then l.(flags := f.(caps := !f.caps))
    else if code == MAKE_L_SHFT || code == MAKE_R_SHFT then l.(flags := f.(shift := true))
    else if code == BREAK_L_SHFT || code == BREAK_R_SHFT then l.(flags := f.(shift := false))
    else if code == MAKE_L_CTRL then l.(flags := f.(ctrl := true))
    else if code == BREAK_L_CTRL then l.(flags := f.(ctrl := false))
    else if code == MAKE_L_ALT then l.(flags := f.(alt := true))
    else if code == BREAK_L_ALT then l.(flags := f.(alt := false))
    else if MAKE_F1 <= code <= MAKE_F3 then l
    else if code == EXTRAS then ExtraKey(l, next)
    else if f.ctrl && code == MAKE_L then Line([], 0, f.(ctrl := false), true)
    else l
  }

  // ---- Three ttys ----

  datatype Desk = Desk(lines: seq<Line>, active: nat)

  predicate WfDesk(d: Desk) {
    |d.lines| == 3 && d.active < 3 && forall t :: 0 <= t < 3 ==> WfLine(d.lines[t])
  }

  /** Alt with F1 to F3 chooses the active tty; every other key goes to it. */
  function Press(d: Desk, code: byte, next: byte): (r: Desk)
    requires WfDesk(d)
  {
    if MAKE_F1 <= code <= MAKE_F3 then
      (if d.lines[d.active].flags.alt then d.(active := code - MAKE_F1) else d)
    else d.(lines := d.lines[d.active := Key(d.lines[d.active], code, next)])
  }

  /** A read on the active tty takes the line away. */
  function Taken(l: Line): Line { l.(text := [], cursor := 0, ready := false) }

  datatype KeyEvent = Scan(code: byte, next: byte) | TakeLine

  function Step(d: Desk, e: KeyEvent): Desk
    requires WfDesk(d)
  {
    match e
    case Scan(code, next) => Press(d, code, next)
    case TakeLine => d.(lines := d.lines[d.active := Taken(d.lines[d.active])])
  }

  lemma EditsKeepWf(l: Line, c: byte)
    requires WfLine(l) && 32 <= c <= 126
    ensures WfLine(Insert(l, c)) && WfLine(Backspace(l)) && WfLine(Delete(l)) && WfLine(Left(l)) && WfLine(Right(l))
  {
  }

  lemma KeyKeepsWf(l: Line, code: byte, next: byte)
    requires WfLine(l)
    ensures WfLine(Key(l, code, next))
  {
    EditsKeepWf(l, if IsCharKey(code) then KeyChar(l.flags.shift, l.flags.caps, code) else 32);
  }

  lemma StepKeepsWf(d: Desk, e: KeyEvent)
    requires WfDesk(d)
    ensures WfDesk(Step(d, e))
  {
    if e.Scan? {
      KeyKeepsWf(d.lines[d.active], e.code, e.next);
    }
  }

  function Run(d: Desk, es: seq<KeyEvent>): (r: Desk)
    requires WfDesk(d)
    ensures WfDesk(r)
    decreases |es|
  {
    if es == [] then d
    else
      StepKeepsWf(d, es[0]);
      Run(Step(d, es[0]), es[1..])
  }

  // ---- Laws of the editor ----

  /** Backspace takes back what was typed exactly when there was room for it or nothing before it. */
  lemma BackspaceUndoesInsert(l: Line, c: byte)
    requires WfLine(l) && 32 <= c <= 126
    ensures WfLine(Insert(l, c))
    ensures Backspace(Insert(l, c)) == l <==> |l.text| + 1 < MAX_SIZE || l.cursor == 0
  {
  }

  /** Backspace is a step to the left and a delete. */
  lemma BackspaceIsLeftDelete(l: Line)
    requires WfLine(l) && l.cursor > 0
    ensures Delete(Left(l)) == Backspace(l)
  {
  }

  function Chars(f: Flags, codes: seq<byte>): seq<byte>
    requires forall i :: 0 <= i < |codes| ==> IsCharKey(codes[i])
  {
    seq(|codes|, i requires 0 <= i < |codes| => KeyChar(f.shift, f.caps, codes[i]))
  }

  function Scans(codes: seq<byte>): seq<KeyEvent> {
    seq(|codes|, i requires 0 <= i < |codes| => Scan(codes[i], 0))
  }

  /** The desk with more text at the end of the active line, and the cursor behind it. */
  function Appended(d: Desk, text: seq<byte>): Desk
    requires WfDesk(d)
  {
    var l := d.lines[d.active];
    d.(lines := d.lines[d.active := l.(text := l.text + text, cursor := l.cursor + |text|)])
  }

  predicate AtEnd(d: Desk)
    requires WfDesk(d)
  {
    var l := d.lines[d.active]; !l.flags.ctrl && l.cursor == |l.text|
  }

  lemma PressAppends(d: Desk, code: byte)
    requires WfDesk(d) && AtEnd(d) && IsCharKey(code) && |d.lines[d.active].text| + 1 < MAX_SIZE
    ensures var f := d.lines[d.active].flags;
            && Press(d, code, 0) == Appended(d, [KeyChar(f.shift, f.caps, code)])
            && WfDesk(Press(d, code, 0)) && AtEnd(Press(d, code, 0))
  {
    StepKeepsWf(d, Scan(code, 0));
    var l := d.lines[d.active];
    var c := KeyChar(l.flags.shift, l.flags.caps, code);
    assert l.text[..l.cursor] + [c] + l.text[l.cursor..] == l.text + [c];
  }

  lemma AppendTwice(d: Desk, a: seq<byte>, b: seq<byte>)
    requires WfDesk(d) && WfDesk(Appended(d, a))
    ensures Appended(Appended(d, a), b) == Appended(d, a + b)
  {
    var t := d.lines[d.active].text;
    assert (t + a) + b == t + (a + b);
  }

  lemma ScansCons(f: Flags, codes: seq<byte>)
    requires codes != [] && forall i :: 0 <= i < |codes| ==> IsCharKey(codes[i])
    ensures Scans(codes) == [Scan(codes[0], 0)] + Scans(codes[1..])
    ensures Chars(f, codes) == [KeyChar(f.shift, f.caps, codes[0])] + Chars(f, codes[1..])
  {
  }

  /** Character keys typed at the end of a line append their characters to it, and nothing else
      changes on any tty. */
  lemma {:induction false} TypingAppends(d: Desk, codes: seq<byte>)
    requires WfDesk(d) && forall i :: 0 <= i < |codes| ==> IsCharKey(codes[i])
    requires AtEnd(d) && |d.lines[d.active].text| + |codes| < MAX_SIZE
    ensures Run(d, Scans(codes)) == Appended(d, Chars(d.lines[d.active].flags, codes))
    decreases |codes|
  {
    var f := d.lines[d.active].flags;
    if codes == [] {
      assert d.lines[d.active].text + [] == d.lines[d.active].text;
    } else {
      ScansCons(f, codes);
      PressAppends(d, codes[0]);
      TypingAppends(Press(d, codes[0], 0), codes[1..]);
      AppendTwice(d, [KeyChar(f.shift, f.caps, codes[0])], Chars(f, codes[1..]));
    }
  }
}

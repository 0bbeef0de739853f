/** The keyboard handler's two halves together with what programs do to the screens: each key edits the
    active tty's line and reprints it on that tty's screen; programs print, wait for a line and take
    it. */
module Console {
  import opened Basics
  import opened Screen
  import opened ScreenDriver
  import opened Editor
  import opened Keyboard

  // ---- Three lines and three screens ----

  datatype Desktop = Desktop(desk: Desk, views: seq<View>)

  predicate WfDesktop(c: Desktop) {
    WfDesk(c.desk) && |c.views| == 3 && forall t :: 0 <= t < 3 ==> InRange(c.views[t])
  }

  /** The command location is on the screen. */
  predicate Located(v: View) { 0 <= v.commandX < COLS && 0 <= v.commandY < ROWS }

  /** A scancode (`next` is the code behind a 0xE0 prefix); the two ends of terminal_read for a program
      on `tty`; terminal_write of a program on `tty`. */
  datatype Event =
    | KeyDown(code: byte, next: byte)
    | StartRead(tty: nat)
    | FinishRead(tty: nat, nbytes: nat)
    | Write(tty: nat, text: seq<byte>)

  function DeskAfter(d: Desk, code: byte, next: byte): (r: Desk)
    requires WfDesk(d)
    ensures WfDesk(r)
  {
    StepKeepsWf(d, Scan(code, next));
    Press(d, code, next)
  }

  /** Ctrl-L clears the screen. */
  predicate Clears(d: Desk, code: byte)
    requires WfDesk(d)
  {
    d.lines[d.active].flags.ctrl && code == MAKE_L
  }

  /** The line can be reprinted without leaving the screen; a read ends once its tty's line is ready. */
  predicate Possible(c: Desktop, e: Event)
    requires WfDesktop(c)
  {
    match e
    case KeyDown(code, next) => Clears(c.desk, code) || Located(c.views[DeskAfter(c.desk, code, next).active])
    case StartRead(tty) => tty < 3
    case FinishRead(tty, nbytes) => tty < 3 && c.desk.lines[tty].ready && 1 <= nbytes <= MAX_SIZE
    case Write(tty, text) => tty < 3
  }

  /** printthebuffer for the tty that is active now, after the screen is cleared if the key asked for
      it. */
  function Reprinted(v: View, clear: bool, line: seq<byte>): View
    requires clear || Located(v)
  {
    Echo(if clear then Cleared() else v, line)
  }

  /** set_command_location */
  function Placed(v: View): View { v.(commandX := v.x, commandY := v.y) }

  function Next(c: Desktop, e: Event): Desktop
    requires WfDesktop(c) && Possible(c, e)
  {
    match e
    case KeyDown(code, next) =>
      var d := DeskAfter(c.desk, code, next);
      Desktop(d, c.views[d.active := Reprinted(c.views[d.active], Clears(c.desk, code), d.lines[d.active].text)])
    case StartRead(tty) => c.(views := c.views[tty := Placed(c.views[tty])])
    case FinishRead(tty, nbytes) =>
      var a := c.desk.active;
      Desktop(Step(c.desk, TakeLine), c.views[a := NewLined(c.views[a])])
    case Write(tty, text) => c.(views := c.views[tty := PutAll(c.views[tty], text)])
  }

  lemma NextKeepsWf(c: Desktop, e: Event)
    requires WfDesktop(c) && Possible(c, e)
    ensures WfDesktop(Next(c, e))
  {
    match e
    case KeyDown(code, next) =>
      var d := DeskAfter(c.desk, code, next);
      EchoAgrees(if Clears(c.desk, code) then Cleared() else c.views[d.active], d.lines[d.active].text);
    case FinishRead(tty, nbytes) => StepKeepsWf(c.desk, TakeLine);
    case _ =>
  }

  predicate Goes(c: Desktop, es: seq<Event>)
    requires WfDesktop(c)
    decreases |es|
  {
    es != [] ==> Possible(c, es[0]) && (NextKeepsWf(c, es[0]); Goes(Next(c, es[0]), es[1..]))
  }

  function Played(c: Desktop, es: seq<Event>): (r: Desktop)
    requires WfDesktop(c) && Goes(c, es)
    ensures WfDesktop(r)
    decreases |es|
  {
    if es == [] then c
    else
      NextKeepsWf(c, es[0]);
      Played(Next(c, es[0]), es[1..])
  }

  // ---- What the screens show ----

  /** The line stands from the command location on, and the cursor right behind it. */
  predicate AtCommand(v: View, line: seq<byte>)
    requires InRange(v)
  {
    && Located(v) && COLS * v.commandY + v.commandX + |line| == Index(v.x, v.y)
    && (line == [] || CommandShown(v, line))
  }

  /** Nothing is ahead of the cursor. If the command location is where the line belongs, the line stands
      there; otherwise there is no line. */
  predicate InOrder(v: View, line: seq<byte>, placed: bool) {
    InRange(v) && BlankAhead(v) && if placed then AtCommand(v, line) else line == []
  }

  predicate AllInOrder(c: Desktop, placed: seq<bool>)
    requires WfDesktop(c)
  {
    |placed| == 3 && forall t :: 0 <= t < 3 ==> InOrder(c.views[t], c.desk.lines[t].text, placed[t])
  }

  /** The ttys whose command location is where their line belongs: a read and Ctrl-L put it there, output
      and the end of a read leave it behind. */
  function PlacedAfter(c: Desktop, placed: seq<bool>, e: Event): seq<bool>
    requires WfDesktop(c) && Possible(c, e) && |placed| == 3
  {
    match e
    case KeyDown(code, next) => placed[DeskAfter(c.desk, code, next).active := true]
    case StartRead(tty) => placed[tty := true]
    case FinishRead(tty, nbytes) => placed[c.desk.active := false]
    case Write(tty, text) => placed[tty := false]
  }

  /** Keys come while the command location is right, or clear the screen; a program prints and starts to
      read while nothing is typed on its tty, and is woken while its tty is the active one. */
  predicate Polite(c: Desktop, placed: seq<bool>, e: Event)
    requires WfDesktop(c) && |placed| == 3
  {
    match e
    case KeyDown(code, next) => Clears(c.desk, code) || placed[DeskAfter(c.desk, code, next).active]
    case StartRead(tty) => tty < 3 && c.desk.lines[tty].text == []
    case FinishRead(tty, nbytes) => tty == c.desk.active && c.desk.lines[tty].ready && 1 <= nbytes <= MAX_SIZE
    case Write(tty, text) => tty < 3 && c.desk.lines[tty].text == []
  }

  /** A key shortens a line by at most one character, except by clearing it. */
  lemma KeyShortensByOne(l: Line, code: byte, next: byte)
    requires WfLine(l)
    ensures |Key(l, code, next).text| >= |l.text| - 1 || (l.flags.ctrl && code == MAKE_L)
    ensures l.flags.ctrl && code == MAKE_L ==> Key(l, code, next).text == []
  {
  }

  /** Reprinting a line in place of one at most a character longer, or on a cleared screen. */
  lemma ReprintInOrder(v: View, clear: bool, was: seq<byte>, line: seq<byte>)
    requires Typed(line) && (if clear then line == [] else InOrder(v, was, true) && |was| <= |line| + 1)
    ensures var r := Reprinted(v, clear, line); InOrder(r, line, true) && CommandShown(r, line)
  {
    var from := if clear then Cleared() else v;
    EchoAgrees(from, line);
    EchoLeavesNothing(from, if clear then 0 else |was|, line);
  }

  lemma KeyInOrder(c: Desktop, placed: seq<bool>, code: byte, next: byte)
    requires WfDesktop(c) && AllInOrder(c, placed) && Polite(c, placed, KeyDown(code, next))
    ensures var d, clear := DeskAfter(c.desk, code, next), Clears(c.desk, code);
            var v, line := c.views[d.active], d.lines[d.active].text;
            && (clear || Located(v))
            && InOrder(Reprinted(v, clear, line), line, true) && CommandShown(Reprinted(v, clear, line), line)
  {
    var d, clear := DeskAfter(c.desk, code, next), Clears(c.desk, code);
    KeyShortensByOne(c.desk.lines[c.desk.active], code, next);
    ReprintInOrder(c.views[d.active], clear, c.desk.lines[d.active].text, d.lines[d.active].text);
  }

  /** Each event can happen and keeps every screen in order; a key shows its line, terminator and all. */
  lemma NextInOrder(c: Desktop, placed: seq<bool>, e: Event)
    requires WfDesktop(c) && AllInOrder(c, placed) && Polite(c, placed, e)
    ensures Possible(c, e) && WfDesktop(Next(c, e)) && AllInOrder(Next(c, e), PlacedAfter(c, placed, e))
    ensures var r := Next(c, e);
            e.KeyDown? ==> CommandShown(r.views[r.desk.active], r.desk.lines[r.desk.active].text)
  {
    match e
    case KeyDown(code, next) =>
      KeyInOrder(c, placed, code, next);
      NextKeepsWf(c, e);
    case StartRead(tty) =>
    case FinishRead(tty, nbytes) =>
      NextKeepsWf(c, e);
      NewLineKeepsAhead(c.views[tty]);
    case Write(tty, text) => PrintKeepsAhead(c.views[tty], text);
  }

  /** A run of polite events, as far as it can go. */
  predicate Courteous(c: Desktop, placed: seq<bool>, es: seq<Event>)
    requires WfDesktop(c) && |placed| == 3
    decreases |es|
  {
    es != [] ==>
      && Polite(c, placed, es[0])
      && (Possible(c, es[0]) ==>
            (NextKeepsWf(c, es[0]); Courteous(Next(c, es[0]), PlacedAfter(c, placed, es[0]), es[1..])))
  }

  function PlacedAtEnd(c: Desktop, placed: seq<bool>, es: seq<Event>): (r: seq<bool>)
    requires WfDesktop(c) && Goes(c, es) && |placed| == 3
    ensures |r| == 3
    decreases |es|
  {
    if es == [] then placed
    else
      NextKeepsWf(c, es[0]);
      PlacedAtEnd(Next(c, es[0]), PlacedAfter(c, placed, es[0]), es[1..])
  }

  /** Over every run of keys, changes of tty, output and reads, from screens in order, nothing is written
      outside a screen, each tty's line stands on that tty's own screen from its latest command location
      on, and there is nothing ahead of any cursor. */
  lemma {:induction false} EveryScreenInOrder(c: Desktop, placed: seq<bool>, es: seq<Event>)
    requires WfDesktop(c) && AllInOrder(c, placed) && Courteous(c, placed, es)
    ensures Goes(c, es) && AllInOrder(Played(c, es), PlacedAtEnd(c, placed, es))
    ensures var r := Played(c, es);
            es != [] && es[|es| - 1].KeyDown? ==> CommandShown(r.views[r.desk.active], r.desk.lines[r.desk.active].text)
    decreases |es|
  {
    if es != [] {
      NextInOrder(c, placed, es[0]);
      EveryScreenInOrder(Next(c, es[0]), PlacedAfter(c, placed, es[0]), es[1..]);
    }
  }

  /** While every command location is right, keys alone are always polite. */
  lemma {:induction false} KeysAreCourteous(c: Desktop, keys: seq<Event>)
    requires WfDesktop(c) && forall i :: 0 <= i < |keys| ==> keys[i].KeyDown?
    ensures Courteous(c, [true, true, true], keys)
    decreases |keys|
  {
    if keys != [] && Possible(c, keys[0]) {
      NextKeepsWf(c, keys[0]);
      assert PlacedAfter(c, [true, true, true], keys[0]) == [true, true, true];
      KeysAreCourteous(Next(c, keys[0]), keys[1..]);
    }
  }

  function CommandStart(v: View): int { COLS * v.commandY + v.commandX }

  /** Why keys have to wait for the command location: whatever has been printed, the next reprint leaves
      a character standing in its place behind the location only if it is the line's own. */
  lemma OutputIsOverwritten(v: View, text: seq<byte>, line: seq<byte>, i: nat)
    requires InRange(v) && Located(PutAll(v, text)) && Typed(line)
    requires i <= |line| && CommandStart(PutAll(v, text)) + i < CELLS
    ensures var w := PutAll(v, text);
            var r := Echo(w, line);
            && Located(r) && CommandStart(r) <= CommandStart(w)
            && (r.cells[CommandStart(r) + i].ch == w.cells[CommandStart(w) + i].ch
                <==> w.cells[CommandStart(w) + i].ch == (line + [NUL])[i])
  {
    EchoAgrees(PutAll(v, text), line);
  }

  /** The text stands from the command location on. */
  predicate Stands(v: View, text: seq<byte>) {
    && Located(v) && CommandStart(v) + |text| <= CELLS
    && forall k :: CommandStart(v) <= k < CommandStart(v) + |text| ==> v.cells[k].ch == text[k - CommandStart(v)]
  }

  lemma StandsIff(v: View, line: seq<byte>, text: seq<byte>)
    requires Located(v) && CommandShown(v, line) && Typed(text) && CommandStart(v) + |text| <= CELLS
    ensures Stands(v, text) <==> text <= line
  {
    var start := CommandStart(v);
    if |text| > |line| {
      assert v.cells[start + |line|].ch == NUL != text[|line|];
    } else if Stands(v, text) {
      forall i | 0 <= i < |text| ensures text[i] == line[i] {
        var k := start + i;
        assert v.cells[k].ch == text[k - start] && v.cells[k].ch == line[k - start];
      }
    }
  }

  lemma OutputStands(v: View, text: seq<byte>)
    requires InRange(v) && AtCommand(v, []) && Typed(text)
    ensures Stands(PutAll(v, text), text)
  {
    assert text[..|text|] == text;
    EchoAll(v, text, |text|);
  }

  /** So output printed from the command location on outlasts the next key exactly when it is the start of
      the line. */
  lemma OutputStaysIff(v: View, text: seq<byte>, line: seq<byte>)
    requires InRange(v) && AtCommand(v, []) && Typed(text) && Typed(line)
    ensures var w := PutAll(v, text); Stands(w, text) && (Stands(Echo(w, line), text) <==> text <= line)
  {
    OutputStands(v, text);
    var w := PutAll(v, text);
    EchoAgrees(w, line);
    StandsIff(Echo(w, line), line, text);
  }

  // ---- Whose line is read ----

  /** A program that waits for its tty's line gets what the active tty's line delivers. That is its own
      line exactly when its tty is still the active one, or the two lines agree as far as it asks;
      otherwise its own line stays where it is. */
  lemma OwnLineIff(c: Desktop, tty: nat, nbytes: nat, buf: seq<byte>)
    requires WfDesktop(c) && Possible(c, FinishRead(tty, nbytes))
    requires Delivers(c.desk.lines[c.desk.active].text, nbytes, buf)
    ensures var own, active := c.desk.lines[tty].text, c.desk.lines[c.desk.active].text;
            Delivers(own, nbytes, buf) <==> tty == c.desk.active || Start(own, nbytes) == Start(active, nbytes)
    ensures var r := Next(c, FinishRead(tty, nbytes));
            r.desk.lines[tty] == if tty == c.desk.active then Taken(c.desk.lines[tty]) else c.desk.lines[tty]
  {
    SameDelivered(c.desk.lines[c.desk.active].text, c.desk.lines[tty].text, nbytes, buf);
  }

  // ---- What programs do to their screens ----

  /** The tty's screen shows the last 25 rows of a text, and the cursor is where the text ends. */
  predicate Displays(v: View, text: seq<byte>) { Shows(v, Layout(text), EndColumn(text)) }

  /** A write goes on where the text on the program's own tty ends, and changes no line and no other
      screen. */
  lemma WriteDisplays(c: Desktop, tty: nat, before: seq<byte>, text: seq<byte>)
    requires WfDesktop(c) && tty < 3 && Displays(c.views[tty], before) && NUL !in text
    ensures var r := Next(c, Write(tty, text));
            && Displays(r.views[tty], before + text) && r.desk == c.desk
            && forall t :: 0 <= t < 3 && t != tty ==> r.views[t] == c.views[t]
  {
    TextContinues(c.views[tty], before, text);
  }

  /** The end of a read is a line break on the active screen. */
  lemma ReadBreaksLine(c: Desktop, tty: nat, nbytes: nat, before: seq<byte>)
    requires WfDesktop(c) && Possible(c, FinishRead(tty, nbytes)) && Displays(c.views[c.desk.active], before)
    ensures var r := Next(c, FinishRead(tty, nbytes));
            Displays(r.views[c.desk.active], before + [LF])
  {
    NewLineShows(c.views[c.desk.active], Layout(before));
    LayoutBreaks(before, LF);
  }

  /** Whatever is on the screen, the cursor is at the start of a row after a read, one row further down
      unless it was on the last one; then everything moves up. */
  lemma ReadMovesDown(c: Desktop, tty: nat, nbytes: nat)
    requires WfDesktop(c) && Possible(c, FinishRead(tty, nbytes))
    ensures var v, r := c.views[c.desk.active], Next(c, FinishRead(tty, nbytes)).views[c.desk.active];
            if v.y < 24 then r == v.(x := 0, y := v.y + 1)
            else r.x == 0 && r.y == 24 && r.cells[..1920] == v.cells[80..] && r.cells[1920..] == Blanks(80)
  {
  }

  predicate Touches(c: Desktop, e: Event, t: nat)
    requires WfDesktop(c)
  {
    match e
    case KeyDown(code, next) => DeskAfter(c.desk, code, next).active == t
    case StartRead(tty) => tty == t
    case FinishRead(tty, nbytes) => c.desk.active == t
    case Write(tty, text) => tty == t
  }

  /** No event of the run touches tty `t`. */
  predicate Spared(c: Desktop, es: seq<Event>, t: nat)
    requires WfDesktop(c) && Goes(c, es)
    decreases |es|
  {
    es != [] ==> !Touches(c, es[0], t) && (NextKeepsWf(c, es[0]); Spared(Next(c, es[0]), es[1..], t))
  }

  /** A tty keeps its line and its whole screen, whatever is typed, printed and read elsewhere. */
  lemma {:induction false} OthersUntouched(c: Desktop, es: seq<Event>, t: nat)
    requires WfDesktop(c) && Goes(c, es) && t < 3 && Spared(c, es, t)
    ensures Played(c, es).views[t] == c.views[t] && Played(c, es).desk.lines[t] == c.desk.lines[t]
    decreases |es|
  {
    if es != [] {
      NextKeepsWf(c, es[0]);
      OthersUntouched(Next(c, es[0]), es[1..], t);
    }
  }

  // ---- In place ----

  /** The screens of the three ttys. */
  class Screens {
    const screens: seq<Terminal>

    ghost function Footprint(): set<object> {
      if |screens| != 3 then {}
      else {screens[0], screens[1], screens[2], screens[0].buf, screens[1].buf, screens[2].buf}
    }

    ghost predicate Valid()
      reads this, Footprint()
    {
      && |screens| == 3
      && (forall i, j :: 0 <= i < j < 3 ==> screens[i] != screens[j] && screens[i].buf != screens[j].buf)
      && (forall i :: 0 <= i < 3 ==> screens[i].Valid())
    }

    ghost function Views(): (v: seq<View>)
      requires Valid()
      reads this, Footprint()
      ensures |v| == 3 && forall t :: 0 <= t < 3 ==> v[t] == screens[t].Seen() && InRange(v[t])
    {
      [screens[0].Seen(), screens[1].Seen(), screens[2].Seen()]
    }

    constructor ()
      ensures Valid() && Views() == [Cleared(), Cleared(), Cleared()] && fresh(Footprint())
    {
      var a := new Terminal();
      var b := new Terminal();
      var c := new Terminal();
      screens := [a, b, c];
    }

    /** The screen of tty `t`, which shares nothing with the other two. */
    method Pick(t: nat) returns (screen: Terminal)
      requires Valid() && t < 3
      ensures screen == screens[t] && screen in Footprint() && screen.buf in Footprint() && screen.Valid()
      ensures forall i :: 0 <= i < 3 && i != t ==> screens[i] != screen && screens[i].buf != screen.buf
    {
      screen := screens[t];
    }

    /** printthebuffer on tty `t`, after the screen is cleared if the key asked for it. */
    method Reprint(t: nat, clear: bool, command: array<byte>, length: nat)
      requires Valid() && t < 3 && (clear || Located(Views()[t]))
      requires length < command.Length && command[length] == NUL && Typed(command[..length])
      modifies Footprint()
      ensures Valid() && Views() == old(Views())[t := Reprinted(old(Views())[t], clear, command[..length])]
    {
      var screen := Pick(t);
      screen.Reprint(clear, command, length);
    }

    method Write(t: nat, text: seq<byte>)
      requires Valid() && t < 3
      modifies Footprint()
      ensures Valid() && Views() == old(Views())[t := PutAll(old(Views())[t], text)]
    {
      var screen := Pick(t);
      screen.Write(text);
    }

    method NewLine(t: nat)
      requires Valid() && t < 3
      modifies Footprint()
      ensures Valid() && Views() == old(Views())[t := NewLined(old(Views())[t])]
    {
      var screen := Pick(t);
      screen.NewLine();
    }

    method SetCommandLocation(t: nat)
      requires Valid() && t < 3
      modifies Footprint()
      ensures Valid() && Views() == old(Views())[t := Placed(old(Views())[t])]
    {
      var screen := Pick(t);
      screen.SetCommandLocation();
    }
  }

  /** The keyboard driver and the screens. */
  class Console {
    const driver: Driver
    const screens: Screens

    ghost predicate Valid()
      reads driver, driver.Footprint(), screens, screens.Footprint()
    {
      driver.Valid() && screens.Valid() && driver.Footprint() !! screens.Footprint()
    }

    ghost function Shown(): (c: Desktop)
      requires Valid()
      reads driver, driver.Footprint(), screens, screens.Footprint()
      ensures WfDesktop(c)
    {
      Desktop(driver.Shown(), screens.Views())
    }

    constructor ()
      ensures Valid() && Shown() == Desktop(Desk([EMPTY, EMPTY, EMPTY], 0), [Cleared(), Cleared(), Cleared()])
    {
      driver := new Driver();
      screens := new Screens();
    }

    /** process_keyboard_input touches no screen. */
    method Process(code: byte, next: byte)
      requires Valid()
      modifies driver`active, driver.Footprint()
      ensures Valid() && screens.Views() == old(screens.Views())
      ensures driver.Shown() == DeskAfter(old(driver.Shown()), code, next)
    {
      driver.Process(code, next);
    }

    /** printthebuffer touches no line. */
    method Reprint(clear: bool)
      requires Valid() && (clear || Located(screens.Views()[driver.active]))
      modifies screens.Footprint()
      ensures Valid() && driver.Shown() == old(driver.Shown())
      ensures var d, v := old(driver.Shown()), old(screens.Views());
              screens.Views() == v[d.active := Reprinted(v[d.active], clear, d.lines[d.active].text)]
    {
      var line := driver.ActiveLine();
      screens.Reprint(driver.active, clear, line.buffer, line.length);
    }

    /** One round of keyboard_interruption: a scancode is processed and its tty's line reprinted. */
    method HandleKey(code: byte, next: byte)
      requires Valid() && Possible(Shown(), KeyDown(code, next))
      modifies driver`active, driver.Footprint(), screens.Footprint()
      ensures Valid() && Shown() == Next(old(Shown()), KeyDown(code, next))
    {
      var clear := driver.lines[driver.active].flags.ctrl && code == MAKE_L;
      Process(code, next);
      Reprint(clear);
    }

    /** new_line touches no line. */
    method NewLine()
      requires Valid()
      modifies screens.Footprint()
      ensures Valid() && driver.Shown() == old(driver.Shown())
      ensures var a, v := driver.active, old(screens.Views()); screens.Views() == v[a := NewLined(v[a])]
    {
      screens.NewLine(driver.active);
    }

    /** terminal_read's copy loop touches no screen. */
    method TakeLine(tty: nat, nbytes: nat) returns (buf: seq<byte>)
      requires Valid() && 1 <= nbytes <= MAX_SIZE && tty < 3 && driver.Shown().lines[tty].ready
      modifies driver.Footprint()
      ensures Valid() && screens.Views() == old(screens.Views())
      ensures driver.Shown() == Step(old(driver.Shown()), KeyEvent.TakeLine)
      ensures Delivers(old(driver.Shown()).lines[driver.active].text, nbytes, buf)
    {
      buf := driver.Read(tty, nbytes);
    }

    /** terminal_read from its wake-up on: a new line on the screen, and the line for the caller. */
    method Read(tty: nat, nbytes: nat) returns (buf: seq<byte>)
      requires Valid() && Possible(Shown(), FinishRead(tty, nbytes))
      modifies driver.Footprint(), screens.Footprint()
      ensures Valid() && Shown() == Next(old(Shown()), FinishRead(tty, nbytes))
      ensures Delivers(old(driver.Shown()).lines[driver.active].text, nbytes, buf)
      ensures var was := old(driver.Shown());
              && (Delivers(was.lines[tty].text, nbytes, buf) <==>
                    || tty == was.active
                    || Start(was.lines[tty].text, nbytes) == Start(was.lines[was.active].text, nbytes))
              && (tty != was.active ==> driver.Shown().lines[tty] == was.lines[tty])
    {
      ghost var c := Shown();
      NewLine();
      buf := TakeLine(tty, nbytes);
      OwnLineIff(c, tty, nbytes, buf);
    }

    /** The calls and interrupts in any order. */
    method Handle(e: Event) returns (buf: seq<byte>)
      requires Valid() && Possible(Shown(), e)
      modifies driver`active, driver.Footprint(), screens.Footprint()
      ensures Valid() && Shown() == Next(old(Shown()), e)
    {
      buf := [];
      match e
      case KeyDown(code, next) => HandleKey(code, next);
      case StartRead(tty) => screens.SetCommandLocation(tty);
      case FinishRead(tty, nbytes) => buf := Read(tty, nbytes);
      case Write(tty, text) => screens.Write(tty, text);
    }

    method HandleAll(es: seq<Event>)
      requires Valid() && Goes(Shown(), es)
      modifies driver`active, driver.Footprint(), screens.Footprint()
      ensures Valid() && Shown() == Played(old(Shown()), es)
    {
      ghost var c := Shown();
      for i := 0 to |es|
        invariant Valid() && Goes(Shown(), es[i..]) && Played(c, es) == Played(Shown(), es[i..])
      {
        assert es[i..][0] == es[i] && es[i..][1..] == es[i + 1..];
        var buf := Handle(es[i]);
      }
    }
  }

  /** The console starts with every screen in order. */
  lemma StartsInOrder()
    ensures var c := Desktop(Desk([EMPTY, EMPTY, EMPTY], 0), [Cleared(), Cleared(), Cleared()]);
            WfDesktop(c) && AllInOrder(c, [true, true, true])
  {
  }
}

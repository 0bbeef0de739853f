/** The text screen of one tty (student-distrib/lib.c): an 80 by 25 buffer written through a cursor
    that wraps and scrolls. The field a C array of three holds for each tty is a field here. */
module Screen {
  import opened Basics

  const COLS := 80
  const ROWS := 25
  const CELLS := 2000
  const ATTRIB := 7

  const NUL: byte := 0
  const LF: byte := 10
  const CR: byte := 13
  const SPACE: byte := 32

  datatype Cell = Cell(ch: byte, attr: byte)

  const BLANK := Cell(SPACE, ATTRIB)

  type Cells = c: seq<Cell> | |c| == CELLS witness seq(CELLS, _ => BLANK)

  /** A tty's buffer, cursor and command location. */
  datatype View = View(cells: Cells, x: nat, y: nat, commandX: int, commandY: int)

  predicate InRange(v: View) { v.x < COLS && v.y < ROWS }

  function Blanks(n: nat): (b: seq<Cell>)
    ensures |b| == n
  {
    seq(n, _ => BLANK)
  }

  function Cleared(): View { View(Blanks(CELLS), 0, 0, 0, 0) }

  function Index(x: nat, y: nat): (i: nat)
    requires x < COLS && y < ROWS
    ensures i < CELLS
  {
    COLS * y + x
  }

  // ---- What the functions of lib.c leave behind ----

  /** scrolling: a command at the bottom left corner moves up with its text. */
  function Scrolled(v: View): View {
    v.(cells := v.cells[COLS..] + Blanks(COLS),
       commandY := if v.x == 0 && v.y == ROWS - 1 then v.commandY - 1 else v.commandY)
  }

  function LineDown(v: View): View {
    if v.y < ROWS - 1 then v.(y := v.y + 1) else Scrolled(v)
  }

  predicate IsBreak(c: byte) { c == LF || c == CR }

  function Put(v: View, c: byte): (r: View)
    requires InRange(v)
    ensures InRange(r)
  {
    if IsBreak(c) then LineDown(v).(x := 0)
    else
      var written := v.(cells := v.cells[Index(v.x, v.y) := Cell(c, ATTRIB)]);
      if c == NUL then written
      else if v.x + 1 > 79 then LineDown(written.(x := 0))
      else written.(x := v.x + 1)
  }

  /** putc by the byte: 10 and 13 go to the start of the next row; 0 is written without moving the cursor;
      anything else is written, in attribute 7, and moves it on, at the end of a row to the next one. */
  lemma PutByByte(v: View, c: byte)
    requires InRange(v)
    ensures var r, at := Put(v, c), 80 * v.y + v.x;
            && (c == 10 || c == 13 ==> r.x == 0 && r.y == Min(v.y + 1, 24) && (v.y < 24 ==> r.cells == v.cells))
            && (c == 0 ==> r == v.(cells := v.cells[at := Cell(0, 7)]))
            && (c !in {0, 10, 13} && v.x < 79 ==> r == v.(cells := v.cells[at := Cell(c, 7)], x := v.x + 1))
            && (c !in {0, 10, 13} && v.x == 79 && v.y < 24 ==>
                  r == v.(cells := v.cells[at := Cell(c, 7)], x := 0, y := v.y + 1))
            && (c !in {0, 10, 13} && v.x == 79 && v.y == 24 ==>
                  r.x == 0 && r.y == 24 && r.cells == v.cells[80..1999] + [Cell(c, 7)] + Blanks(80))
  {
  }

  function PutAll(v: View, text: seq<byte>): (r: View)
    requires InRange(v)
    ensures InRange(r)
  {
    if text == [] then v else Put(PutAll(v, text[..|text| - 1]), text[|text| - 1])
  }

  // ---- The wrapped layout of a whole text ----

  type Row = r: seq<Cell> | |r| == COLS witness seq(COLS, _ => BLANK)

  function BlankRow(): Row { Blanks(COLS) }

  function Pad(text: seq<byte>): Row
    requires |text| <= COLS
  {
    seq(COLS, i requires 0 <= i < COLS => if i < |text| then Cell(text[i], ATTRIB) else BLANK)
  }

  /** A paragraph cut into rows of 80; a full last row is followed by an empty one. */
  function Wrapped(text: seq<byte>): (rows: seq<Row>)
    ensures |rows| == |text| / COLS + 1
  {
    if |text| < COLS then [Pad(text)] else [Pad(text[..COLS])] + Wrapped(text[COLS..])
  }

  function ParagraphLength(text: seq<byte>): (n: nat)
    ensures n <= |text|
    ensures n < |text| ==> IsBreak(text[n])
    ensures forall k :: 0 <= k < n ==> !IsBreak(text[k])
  {
    if text == [] || IsBreak(text[0]) then 0 else 1 + ParagraphLength(text[1..])
  }

  /** All rows the text would take on an endless screen. */
  function Layout(text: seq<byte>): (rows: seq<Row>)
    ensures |rows| > 0
    decreases |text|
  {
    var n := ParagraphLength(text);
    if n == |text| then Wrapped(text) else Wrapped(text[..n]) + Layout(text[n + 1..])
  }

  /** The column at which the text ends. */
  function EndColumn(text: seq<byte>): (x: nat)
    ensures x < COLS
    decreases |text|
  {
    var n := ParagraphLength(text);
    if n == |text| then |text| % COLS else EndColumn(text[n + 1..])
  }

  // ---- One more character ----

  function LastRow(rows: seq<Row>): Row
    requires rows != []
  {
    rows[|rows| - 1]
  }

  /** Rows with one more character at column `x` of the last row. */
  function Extended(rows: seq<Row>, x: nat, c: byte): seq<Row>
    requires rows != [] && x < COLS
  {
    var written := rows[|rows| - 1 := LastRow(rows)[x := Cell(c, ATTRIB)]];
    if x + 1 == COLS then written + [BlankRow()] else written
  }

  lemma ExtendedBehind(before: seq<Row>, rows: seq<Row>, x: nat, c: byte)
    requires rows != [] && x < COLS
    ensures Extended(before + rows, x, c) == before + Extended(rows, x, c)
  {
  }

  lemma {:induction false} WrappedGrows(text: seq<byte>, c: byte)
    ensures Wrapped(text + [c]) == Extended(Wrapped(text), |text| % COLS, c)
    decreases |text|
  {
    if |text| < COLS - 1 {
      assert Pad(text + [c]) == Pad(text)[|text| := Cell(c, ATTRIB)];
    } else if |text| == COLS - 1 {
      assert (text + [c])[..COLS] == text + [c];
      assert Pad(text + [c]) == Pad(text)[|text| := Cell(c, ATTRIB)];
      assert Pad([]) == BlankRow();
      assert Wrapped(text + [c]) == [Pad(text + [c])] + Wrapped([]);
    } else {
      var rest := text[COLS..];
      assert (text + [c])[..COLS] == text[..COLS] && (text + [c])[COLS..] == rest + [c];
      WrappedGrows(rest, c);
      ExtendedBehind([Pad(text[..COLS])], Wrapped(rest), |rest| % COLS, c);
    }
  }

  lemma ParagraphLengthIs(text: seq<byte>, n: nat)
    requires n <= |text| && (n < |text| ==> IsBreak(text[n])) && forall k :: 0 <= k < n ==> !IsBreak(text[k])
    ensures ParagraphLength(text) == n
  {
  }

  lemma {:induction false} ParagraphGrows(text: seq<byte>, c: byte)
    requires !IsBreak(c) && ParagraphLength(text) == |text|
    ensures Layout(text + [c]) == Extended(Layout(text), EndColumn(text), c)
    ensures EndColumn(text + [c]) == if EndColumn(text) + 1 == COLS then 0 else EndColumn(text) + 1
  {
    ParagraphLengthIs(text + [c], |text| + 1);
    WrappedGrows(text, c);
  }

  lemma {:induction false} LaterParagraph(text: seq<byte>, c: byte, n: nat)
    requires n == ParagraphLength(text) < |text|
    ensures ParagraphLength(text + [c]) == n
    ensures (text + [c])[..n] == text[..n] && (text + [c])[n + 1..] == text[n + 1..] + [c]
  {
    ParagraphLengthIs(text + [c], n);
  }

  lemma {:induction false} LayoutUnfolds(text: seq<byte>, n: nat)
    requires n == ParagraphLength(text) < |text|
    ensures Layout(text) == Wrapped(text[..n]) + Layout(text[n + 1..])
    ensures EndColumn(text) == EndColumn(text[n + 1..])
  {
  }

  /** Growth of the later paragraphs is growth of the whole. */
  lemma GrowsBehind(first: seq<Row>, rest: seq<Row>, all: seq<Row>, rest': seq<Row>, all': seq<Row>, x: nat, c: byte)
    requires rest != [] && x < COLS && all == first + rest && all' == first + rest' && rest' == Extended(rest, x, c)
    ensures all' == Extended(all, x, c)
  {
  }

  lemma BreaksBehind(first: seq<Row>, rest: seq<Row>, all: seq<Row>, rest': seq<Row>, all': seq<Row>)
    requires all == first + rest && all' == first + rest' && rest' == rest + [BlankRow()]
    ensures all' == all + [BlankRow()]
  {
  }

  lemma {:induction false} EndColumnGrows(text: seq<byte>, c: byte)
    requires !IsBreak(c)
    ensures EndColumn(text + [c]) == if EndColumn(text) + 1 == COLS then 0 else EndColumn(text) + 1
    decreases |text|
  {
    var n := ParagraphLength(text);
    if n == |text| {
      ParagraphGrows(text, c);
    } else {
      LaterParagraph(text, c, n);
      LayoutUnfolds(text, n);
      LayoutUnfolds(text + [c], n);
      EndColumnGrows(text[n + 1..], c);
    }
  }

  /** A character that is not a line break extends the last row. */
  lemma {:induction false} LayoutGrows(text: seq<byte>, c: byte)
    requires !IsBreak(c)
    ensures Layout(text + [c]) == Extended(Layout(text), EndColumn(text), c)
    decreases |text|
  {
    var n := ParagraphLength(text);
    if n == |text| {
      ParagraphGrows(text, c);
    } else {
      var more, rest := text + [c], text[n + 1..];
      LaterParagraph(text, c, n);
      LayoutUnfolds(text, n);
      LayoutUnfolds(more, n);
      LayoutGrows(rest, c);
      GrowsBehind(Wrapped(text[..n]), Layout(rest), Layout(text), Layout(rest + [c]), Layout(more), EndColumn(text), c);
    }
  }

  lemma EmptyLayout()
    ensures Layout([]) == [BlankRow()] && EndColumn([]) == 0
  {
    assert Pad([]) == BlankRow();
  }

  lemma {:induction false} ParagraphBreaks(text: seq<byte>, c: byte)
    requires IsBreak(c) && ParagraphLength(text) == |text|
    ensures Layout(text + [c]) == Layout(text) + [BlankRow()] && EndColumn(text + [c]) == 0
  {
    var more := text + [c];
    ParagraphLengthIs(more, |text|);
    assert more[..|text|] == text && more[|text| + 1..] == [];
    EmptyLayout();
  }

  /** A line break starts a new row. */
  lemma {:induction false} LayoutBreaks(text: seq<byte>, c: byte)
    requires IsBreak(c)
    ensures Layout(text + [c]) == Layout(text) + [BlankRow()] && EndColumn(text + [c]) == 0
    decreases |text|
  {
    var n := ParagraphLength(text);
    if n == |text| {
      ParagraphBreaks(text, c);
    } else {
      LaterParagraph(text, c, n);
      LayoutUnfolds(text, n);
      LayoutUnfolds(text + [c], n);
      LayoutBreaks(text[n + 1..], c);
      var more, rest := text + [c], text[n + 1..];
      BreaksBehind(Wrapped(text[..n]), Layout(rest), Layout(text), Layout(rest + [c]), Layout(more));
    }
  }

  // ---- The window on the layout ----

  function Top(rows: seq<Row>): nat { if |rows| <= ROWS then 0 else |rows| - ROWS }

  function Shown(rows: seq<Row>, x: nat, y: nat): Cell
    requires x < COLS && y < ROWS
  {
    if Top(rows) + y < |rows| then rows[Top(rows) + y][x] else BLANK
  }

  function At(cells: Cells, x: nat, y: nat): Cell
    requires x < COLS && y < ROWS
  {
    cells[Index(x, y)]
  }

  /** The buffer shows the last 25 of the rows, with the cursor at column `x` of the last row. */
  predicate Shows(v: View, rows: seq<Row>, x: nat) {
    && rows != [] && InRange(v) && v.x == x && v.y == |rows| - 1 - Top(rows)
    && forall i, j :: 0 <= i < COLS && 0 <= j < ROWS ==> At(v.cells, i, j) == Shown(rows, i, j)
  }

  lemma IndexInjective(i: nat, j: nat, x: nat, y: nat)
    requires i < COLS && x < COLS && j < ROWS && y < ROWS
    ensures Index(i, j) == Index(x, y) <==> i == x && j == y
  {
  }

  lemma WriteShows(v: View, rows: seq<Row>, c: byte)
    requires Shows(v, rows, v.x)
    ensures var written := v.(cells := v.cells[Index(v.x, v.y) := Cell(c, ATTRIB)]);
            Shows(written, rows[|rows| - 1 := LastRow(rows)[v.x := Cell(c, ATTRIB)]], v.x)
  {
    var written := v.(cells := v.cells[Index(v.x, v.y) := Cell(c, ATTRIB)]);
    var now := rows[|rows| - 1 := LastRow(rows)[v.x := Cell(c, ATTRIB)]];
    forall i, j | 0 <= i < COLS && 0 <= j < ROWS
      ensures At(written.cells, i, j) == Shown(now, i, j)
    {
      IndexInjective(i, j, v.x, v.y);
      assert At(v.cells, i, j) == Shown(rows, i, j);
    }
  }

  lemma DownShows(v: View, rows: seq<Row>)
    requires Shows(v, rows, v.x)
    ensures Shows(LineDown(v).(x := 0), rows + [BlankRow()], 0)
  {
    var r, now := LineDown(v).(x := 0), rows + [BlankRow()];
    forall i, j | 0 <= i < COLS && 0 <= j < ROWS
      ensures At(r.cells, i, j) == Shown(now, i, j)
    {
      if v.y < ROWS - 1 {
        assert At(v.cells, i, j) == Shown(rows, i, j);
      } else if j < ROWS - 1 {
        assert At(v.cells, i, j + 1) == Shown(rows, i, j + 1);
        assert Index(i, j) + COLS == Index(i, j + 1);
      }
    }
  }

  lemma PutShows(v: View, rows: seq<Row>, x: nat, c: byte)
    requires Shows(v, rows, x) && c != NUL && !IsBreak(c)
    ensures Shows(Put(v, c), Extended(rows, x, c), if x + 1 == COLS then 0 else x + 1)
  {
    WriteShows(v, rows, c);
    var written := v.(cells := v.cells[Index(v.x, v.y) := Cell(c, ATTRIB)]);
    var now := rows[|rows| - 1 := LastRow(rows)[x := Cell(c, ATTRIB)]];
    if x + 1 == COLS {
      RowsShown(written, written.(x := 0), now);
      DownShows(written.(x := 0), now);
    } else {
      RowsShown(written, written.(x := x + 1), now);
    }
  }

  /** Moving the cursor along its row changes nothing shown. */
  lemma RowsShown(v: View, r: View, rows: seq<Row>)
    requires Shows(v, rows, v.x) && r == v.(x := r.x) && r.x < COLS
    ensures Shows(r, rows, r.x)
  {
  }

  /** After any text without NUL, put on a cleared screen, the buffer shows exactly the last 25
      rows of the text's wrapped layout, and the cursor stands where the text ends. */
  lemma {:induction false} ScreenShowsLayout(text: seq<byte>)
    requires NUL !in text
    ensures Shows(PutAll(Cleared(), text), Layout(text), EndColumn(text))
    decreases |text|
  {
    if text == [] {
      EmptyLayout();
      forall i, j | 0 <= i < COLS && 0 <= j < ROWS
        ensures At(Cleared().cells, i, j) == Shown([BlankRow()], i, j)
      {
      }
    } else {
      var before, c := text[..|text| - 1], text[|text| - 1];
      assert text == before + [c];
      ScreenShowsLayout(before);
      OneMore(PutAll(Cleared(), before), before, c);
    }
  }

  // ---- The echo of the command line ----

  predicate Typed(line: seq<byte>) {
    |line| <= 1023 && forall k :: 0 <= k < |line| ==> line[k] != NUL && !IsBreak(line[k])
  }

  function Returned(v: View): View
    requires 0 <= v.commandX < COLS && 0 <= v.commandY < ROWS
  {
    v.(x := v.commandX, y := v.commandY)
  }

  /** The first `n` characters stand in consecutive cells from the command location on, and the
      cursor is right behind them. */
  predicate Echoes(v: View, line: seq<byte>, n: nat) {
    var start := COLS * v.commandY + v.commandX;
    && InRange(v) && n <= |line| && 0 <= v.commandX < COLS && 0 <= v.commandY < ROWS
    && start + n == Index(v.x, v.y)
    && forall k :: start <= k < start + n ==> v.cells[k] == Cell(line[k - start], ATTRIB)
  }

  lemma EchoStep(v: View, line: seq<byte>, n: nat)
    requires Typed(line) && n < |line| && Echoes(v, line, n)
    ensures Echoes(Put(v, line[n]), line, n + 1) && Put(v, line[n]).commandX == v.commandX
  {
  }

  lemma {:induction false} EchoAll(v: View, line: seq<byte>, n: nat)
    requires Typed(line) && n <= |line| && Echoes(v, line, 0)
    ensures Echoes(PutAll(v, line[..n]), line, n) && PutAll(v, line[..n]).commandX == v.commandX
    decreases n
  {
    if n > 0 {
      EchoAll(v, line, n - 1);
      assert line[..n][..n - 1] == line[..n - 1];
      EchoStep(PutAll(v, line[..n - 1]), line, n - 1);
    }
  }

  /** The line, followed by NUL, stands in consecutive cells from the command location on. */
  predicate CommandShown(v: View, line: seq<byte>) {
    var start := COLS * v.commandY + v.commandX;
    && 0 <= v.commandX < COLS && 0 <= v.commandY && start + |line| < CELLS
    && (forall k :: start <= k < start + |line| ==> v.cells[k].ch == line[k - start])
    && v.cells[start + |line|].ch == NUL
  }

  lemma EchoEnds(v: View, line: seq<byte>)
    requires Echoes(v, line, |line|)
    ensures CommandShown(Put(v, NUL), line)
    ensures Put(v, NUL).commandX == v.commandX && Put(v, NUL).commandY == v.commandY
  {
  }

  /** printthebuffer: back to the command location, then the line and its terminator. */
  function Echo(v: View, line: seq<byte>): View
    requires 0 <= v.commandX < COLS && 0 <= v.commandY < ROWS
  {
    Put(PutAll(Returned(v), line), NUL)
  }

  /** Reprinting the command line leaves it, followed by NUL, in the cells from the command location
      on, however often it wraps or scrolls; the location moves up with the text and stays on the
      screen. */
  lemma EchoAgrees(v: View, line: seq<byte>)
    requires 0 <= v.commandX < COLS && 0 <= v.commandY < ROWS && Typed(line)
    ensures CommandShown(Echo(v, line), line)
    ensures Echo(v, line).commandX == v.commandX && 0 <= Echo(v, line).commandY <= v.commandY
    ensures var r := Echo(v, line); InRange(r) && COLS * r.commandY + r.commandX + |line| == Index(r.x, r.y)
  {
    assert line[..|line|] == line;
    EchoAll(Returned(v), line, |line|);
    CommandOnlyMovesUp(Returned(v), line);
    EchoEnds(PutAll(Returned(v), line), line);
  }

  lemma {:induction false} CommandOnlyMovesUp(v: View, text: seq<byte>)
    requires InRange(v)
    ensures PutAll(v, text).commandY <= v.commandY
    decreases |text|
  {
    if text != [] {
      CommandOnlyMovesUp(v, text[..|text| - 1]);
    }
  }

  // ---- Nothing of a longer line is left behind ----

  predicate IsBlank(c: Cell) { c.ch == NUL || c.ch == SPACE }

  /** Only blanks from `m` cells behind the command location to the end of the screen. */
  predicate BlankFrom(v: View, m: nat) {
    && 0 <= v.commandX && 0 <= v.commandY
    && forall k :: COLS * v.commandY + v.commandX + m <= k < CELLS ==> IsBlank(v.cells[k])
  }

  lemma PutKeepsBlank(v: View, line: seq<byte>, n: nat, m: nat)
    requires Typed(line) && n < |line| && Echoes(v, line, n) && BlankFrom(v, m) && n < m
    ensures BlankFrom(Put(v, line[n]), m)
  {
    EchoStep(v, line, n);
  }

  lemma {:induction false} EchoKeepsBlank(v: View, line: seq<byte>, n: nat, m: nat)
    requires Typed(line) && n <= |line| && Echoes(v, line, 0) && BlankFrom(v, m)
    ensures BlankFrom(PutAll(v, line[..n]), Max(n, m))
    decreases n
  {
    if n > 0 {
      EchoAll(v, line, n - 1);
      EchoKeepsBlank(v, line, n - 1, m);
      assert line[..n][..n - 1] == line[..n - 1];
      var before := PutAll(v, line[..n - 1]);
      assert BlankFrom(before, Max(n, m));
      PutKeepsBlank(before, line, n - 1, Max(n, m));
    }
  }

  /** Reprinting a line that is at most one character shorter than the one before leaves only blanks
      behind it, if there were only blanks behind the one before. */
  lemma EchoLeavesNothing(v: View, was: nat, line: seq<byte>)
    requires 0 <= v.commandX < COLS && 0 <= v.commandY < ROWS && Typed(line) && BlankFrom(v, was) && was <= |line| + 1
    ensures BlankFrom(Echo(v, line), |line|)
  {
    assert line[..|line|] == line;
    EchoAll(Returned(v), line, |line|);
    EchoKeepsBlank(Returned(v), line, |line|, was);
  }

  // ---- Nothing is ahead of the cursor ----

  predicate BlankAhead(v: View)
    requires InRange(v)
  {
    forall k :: Index(v.x, v.y) <= k < CELLS ==> IsBlank(v.cells[k])
  }

  /** A cell ahead of the cursor stays ahead of it until something is written there. */
  lemma PutKeepsAhead(v: View, c: byte)
    requires InRange(v) && BlankAhead(v)
    ensures BlankAhead(Put(v, c))
  {
  }

  /** Whatever is printed, nothing but blanks is ahead of the cursor. */
  lemma {:induction false} PrintKeepsAhead(v: View, text: seq<byte>)
    requires InRange(v) && BlankAhead(v)
    ensures BlankAhead(PutAll(v, text))
    decreases |text|
  {
    if text != [] {
      PrintKeepsAhead(v, text[..|text| - 1]);
      PutKeepsAhead(PutAll(v, text[..|text| - 1]), text[|text| - 1]);
    }
  }

  /** new_line */
  function NewLined(v: View): (r: View)
    requires InRange(v)
    ensures InRange(r)
  {
    LineDown(v.(x := 0))
  }

  /** new_line is a line break: the cursor goes to the start of the next row, and what was shown moves up a
      row at the bottom. */
  lemma NewLineShows(v: View, rows: seq<Row>)
    requires Shows(v, rows, v.x)
    ensures Shows(NewLined(v), rows + [BlankRow()], 0)
    ensures v.y < 24 ==> NewLined(v) == v.(x := 0, y := v.y + 1)
    ensures v.y == 24 ==> NewLined(v).y == 24 && NewLined(v).commandY == v.commandY - 1
  {
    RowsShown(v, v.(x := 0), rows);
    DownShows(v.(x := 0), rows);
  }

  /** What is put on a screen goes on where the text so far ends. */
  lemma {:induction false} TextContinues(v: View, before: seq<byte>, text: seq<byte>)
    requires Shows(v, Layout(before), EndColumn(before)) && NUL !in text
    ensures Shows(PutAll(v, text), Layout(before + text), EndColumn(before + text))
    decreases |text|
  {
    if text == [] {
      assert before + text == before;
    } else {
      var some, c := text[..|text| - 1], text[|text| - 1];
      TextContinues(v, before, some);
      assert before + text == (before + some) + [c];
      OneMore(PutAll(v, some), before + some, c);
    }
  }

  lemma OneMore(v: View, before: seq<byte>, c: byte)
    requires Shows(v, Layout(before), EndColumn(before)) && c != NUL
    ensures Shows(Put(v, c), Layout(before + [c]), EndColumn(before + [c]))
  {
    if IsBreak(c) {
      LayoutBreaks(before, c);
      DownShows(v, Layout(before));
    } else {
      LayoutGrows(before, c);
      EndColumnGrows(before, c);
      PutShows(v, Layout(before), EndColumn(before), c);
    }
  }

  lemma NewLineKeepsAhead(v: View)
    requires InRange(v) && BlankAhead(v)
    ensures BlankAhead(NewLined(v))
  {
  }
}

/** The display functions of lib.c as they work on the video buffer in place. */
module ScreenDriver {
  import opened Basics
  import opened Screen

  /** The buffer when the first `n` cells have taken the cells a row further on. */
  ghost function Moved(was: Cells, n: nat): seq<Cell>
    requires n <= CELLS - COLS
  {
    was[COLS..COLS + n] + was[n..]
  }

  lemma MovedNext(was: Cells, n: nat)
    requires n < CELLS - COLS
    ensures Moved(was, n)[n + COLS] == was[n + COLS]
    ensures Moved(was, n)[n := was[n + COLS]] == Moved(was, n + 1)
  {
  }

  /** The buffer when `n` cells of the last row are blank as well. */
  ghost function Blanked(was: Cells, n: nat): seq<Cell>
    requires n <= COLS
  {
    was[COLS..] + Blanks(n) + was[CELLS - COLS + n..]
  }

  lemma BlankedNext(was: Cells, n: nat)
    requires n < COLS
    ensures Blanked(was, n)[CELLS - COLS + n := BLANK] == Blanked(was, n + 1)
  {
  }

  lemma BlankedEnds(was: Cells)
    ensures Blanked(was, 0) == Moved(was, CELLS - COLS) && Blanked(was, COLS) == was[COLS..] + Blanks(COLS)
  {
  }

  /** One tty: its video buffer (character and attribute bytes), cursor and command location. */
  class Terminal {
    const buf: array<Cell>
    var x: nat
    var y: nat
    var commandX: int
    var commandY: int

    ghost predicate Valid()
      reads this
    {
      buf.Length == CELLS && x < COLS && y < ROWS
    }

    ghost function Seen(): View
      requires Valid()
      reads this, buf
    {
      View(buf[..], x, y, commandX, commandY)
    }

    constructor ()
      ensures Valid() && Seen() == Cleared() && fresh(buf)
    {
      buf := new Cell[CELLS](_ => BLANK);
      x, y, commandX, commandY := 0, 0, 0, 0;
      new;
      assert buf[..] == Cleared().cells;
    }

    method MoveRowsUp()
      requires Valid()
      modifies buf
      ensures buf[..] == Moved(old(buf[..]), CELLS - COLS)
    {
      ghost var was := buf[..];
      var row := 0;
      while row < ROWS - 1
        invariant 0 <= row <= ROWS - 1
        invariant buf[..] == Moved(was, COLS * row)
      {
        var col := 0;
        while col < COLS
          invariant 0 <= col <= COLS
          invariant buf[..] == Moved(was, COLS * row + col)
        {
          ghost var n := COLS * row + col;
          MovedNext(was, n);
          assert buf[n + COLS] == buf[..][n + COLS];
          buf[COLS * row + col] := buf[COLS * (row + 1) + col];
          col := col + 1;
        }
        row := row + 1;
      }
    }

    method BlankLastRow(ghost was: Cells)
      requires Valid() && buf[..] == Blanked(was, 0)
      modifies buf
      ensures buf[..] == Blanked(was, COLS)
    {
      var col := 0;
      while col < COLS
        invariant 0 <= col <= COLS
        invariant buf[..] == Blanked(was, col)
      {
        BlankedNext(was, col);
        buf[COLS * (ROWS - 1) + col] := Cell(SPACE, ATTRIB);
        col := col + 1;
      }
    }

    /** scrolling: every row but the first moves up, cell by cell, and the last is blanked. */
    method Scroll()
      requires Valid()
      modifies this`commandY, buf
      ensures Valid() && Seen() == Scrolled(old(Seen()))
    {
      if x == 0 && y == 24 {
        commandY := commandY - 1;
      }
      ghost var was := buf[..];
      BlankedEnds(was);
      MoveRowsUp();
      BlankLastRow(was);
    }

    /** putc */
    method PutChar(c: byte)
      requires Valid()
      modifies this, buf
      ensures Valid() && Seen() == Put(old(Seen()), c)
    {
      if c == LF || c == CR {
        if y < ROWS - 1 {
          y := y + 1;
        } else {
          Scroll();
        }
        x := 0;
      } else if c == NUL {
        buf[COLS * y + x] := Cell(c, ATTRIB);
      } else {
        buf[COLS * y + x] := Cell(c, ATTRIB);
        x := x + 1;
        if x > 79 {
          x := 0;
          if y < ROWS - 1 {
            y := y + 1;
          } else {
            Scroll();
          }
        }
      }
    }

    /** terminal_write and puts: one putc per byte. */
    method Write(text: seq<byte>)
      requires Valid()
      modifies this, buf
      ensures Valid() && Seen() == PutAll(old(Seen()), text)
    {
      ghost var before := Seen();
      for i := 0 to |text|
        invariant Valid() && Seen() == PutAll(before, text[..i])
      {
        assert text[..i + 1][..i] == text[..i];
        PutChar(text[i]);
      }
      assert text[..|text|] == text;
    }

    /** clear_the_screen */
    method Clear()
      requires Valid()
      modifies this, buf
      ensures Valid() && Seen() == Cleared()
      ensures x == y == 0 && commandX == commandY == 0 && forall i :: 0 <= i < 2000 ==> buf[i] == Cell(0x20, 0x07)
    {
      for i := 0 to CELLS
        invariant forall k :: 0 <= k < i ==> buf[k] == BLANK
      {
        buf[i] := Cell(SPACE, ATTRIB);
      }
      x, y, commandX, commandY := 0, 0, 0, 0;
      assert buf[..] == Cleared().cells;
    }

    /** new_line */
    method NewLine()
      requires Valid()
      modifies this, buf
      ensures Valid() && Seen() == NewLined(old(Seen()))
    {
      x := 0;
      if y < ROWS - 1 {
        y := y + 1;
      } else {
        Scroll();
      }
    }

    /** set_command_location: the command starts where the cursor stands. */
    method SetCommandLocation()
      requires Valid()
      modifies this`commandX, this`commandY
      ensures Valid() && 0 <= commandX < COLS && 0 <= commandY < ROWS
      ensures Seen() == old(Seen()).(commandX := old(x), commandY := old(y))
    {
      commandX := x;
      commandY := y;
    }

    /** printthebuffer: reprints the command line and its terminator from the command location. The
        line is then in consecutive cells from the location on, wherever scrolling has moved it. */
    method PrintBuffer(command: array<byte>, length: nat)
      requires Valid() && 0 <= commandX < COLS && 0 <= commandY < ROWS
      requires length < command.Length && command[length] == NUL && Typed(command[..length])
      modifies this, buf
      ensures Valid() && Seen() == Echo(old(Seen()), command[..length])
      ensures CommandShown(Seen(), command[..length]) && commandX == old(commandX) && 0 <= commandY <= old(commandY)
    {
      ghost var line := command[..length];
      EchoAgrees(Seen(), line);
      x := commandX;
      y := commandY;
      ghost var before := Seen();
      var i := 0;
      while i < length
        invariant 0 <= i <= length && Valid() && command[..length] == line && command[length] == NUL
        invariant Seen() == PutAll(before, line[..i])
      {
        assert line[..i + 1][..i] == line[..i];
        PutChar(command[i]);
        i := i + 1;
      }
      assert line[..length] == line;
      PutChar(command[i]);
    }

    /** printthebuffer, after the screen is cleared if the key asked for it. */
    method Reprint(clear: bool, command: array<byte>, length: nat)
      requires Valid() && (clear || (0 <= commandX < COLS && 0 <= commandY < ROWS))
      requires length < command.Length && command[length] == NUL && Typed(command[..length])
      modifies this, buf
      ensures Valid() && Seen() == Echo(if clear then Cleared() else old(Seen()), command[..length])
    {
      if clear {
        Clear();
      }
      PrintBuffer(command, length);
    }
  }
}

/** The keyboard driver as it works in place on its 1024-byte command buffers. */
module Keyboard {
  import opened Basics
  import opened Screen
  import opened Editor

  type Buffer = b: seq<byte> | |b| == MAX_SIZE witness seq(MAX_SIZE, _ => NUL)

  // ---- What stands behind the line ----

  /** The first byte behind the line is its terminator. It moves with the line's end, over the bytes
      behind it. */
  function Pushed(tail: seq<byte>): seq<byte>
    requires |tail| >= 2
  {
    [tail[0]] + tail[2..]
  }

  function Pulled(tail: seq<byte>): seq<byte>
    requires |tail| >= 1
  {
    [tail[0]] + tail
  }

  /** Ctrl-L blanks the line. */
  predicate BlanksLine(l: Line, code: byte) { l.flags.ctrl && code == MAKE_L }

  /** What one scancode does to the bytes behind the line. */
  function TailAfter(l: Line, code: byte, next: byte, tail: seq<byte>): (r: seq<byte>)
    requires WfLine(l) && |l.text| + |tail| == MAX_SIZE
    ensures |Key(l, code, next).text| + |r| == MAX_SIZE
  {
    var now := Key(l, code, next);
    if BlanksLine(l, code) then seq(|l.text|, _ => NUL) + tail
    else if |now.text| > |l.text| then Pushed(tail)
    else if |now.text| < |l.text| then Pulled(tail)
    else tail
  }

  /** The keys that edit the text. */
  predicate IsEdit(l: Line, code: byte) {
    (!l.flags.ctrl && IsCharKey(code)) || code == MAKE_BKSP || code == MAKE_DELETE || BlanksLine(l, code)
  }

  lemma TailCases(l: Line, code: byte, next: byte, tail: seq<byte>)
    requires WfLine(l) && |l.text| + |tail| == MAX_SIZE
    ensures var r := TailAfter(l, code, next, tail);
            && (!IsEdit(l, code) ==> r == tail)
            && (!l.flags.ctrl && IsCharKey(code) ==> r == if |l.text| + 1 < MAX_SIZE then Pushed(tail) else tail)
            && (code == MAKE_BKSP ==> r == if l.cursor == 0 then tail else Pulled(tail))
            && (code == MAKE_DELETE ==> r == if l.cursor == |l.text| then tail else Pulled(tail))
            && (BlanksLine(l, code) ==> r == seq(|l.text|, _ => NUL) + tail)
  {
  }

  /** The byte behind the line stays NUL. */
  lemma TailKeepsFirst(l: Line, code: byte, next: byte, tail: seq<byte>)
    requires WfLine(l) && |l.text| + |tail| == MAX_SIZE && tail[0] == NUL
    ensures TailAfter(l, code, next, tail)[0] == NUL
  {
  }

  function Keyed(l: Line, keys: seq<KeyEvent>): (r: Line)
    requires WfLine(l) && forall i :: 0 <= i < |keys| ==> keys[i].Scan?
    ensures WfLine(r)
    decreases |keys|
  {
    if keys == [] then l
    else
      KeyKeepsWf(l, keys[0].code, keys[0].next);
      Keyed(Key(l, keys[0].code, keys[0].next), keys[1..])
  }

  function TailKeyed(l: Line, keys: seq<KeyEvent>, tail: seq<byte>): (r: seq<byte>)
    requires WfLine(l) && (forall i :: 0 <= i < |keys| ==> keys[i].Scan?) && |l.text| + |tail| == MAX_SIZE
    ensures |Keyed(l, keys).text| + |r| == MAX_SIZE
    decreases |keys|
  {
    if keys == [] then tail
    else
      KeyKeepsWf(l, keys[0].code, keys[0].next);
      TailKeyed(Key(l, keys[0].code, keys[0].next), keys[1..], TailAfter(l, keys[0].code, keys[0].next, tail))
  }

  /** Some key of the sequence blanks a line that is not empty. */
  predicate Blanked(l: Line, keys: seq<KeyEvent>)
    requires WfLine(l) && forall i :: 0 <= i < |keys| ==> keys[i].Scan?
    decreases |keys|
  {
    keys != [] &&
    (KeyKeepsWf(l, keys[0].code, keys[0].next);
     (BlanksLine(l, keys[0].code) && l.text != []) || Blanked(Key(l, keys[0].code, keys[0].next), keys[1..]))
  }

  /** The byte behind the line stays the same through every sequence of keys, unless a line is blanked. */
  lemma {:induction false} FirstBehindLine(l: Line, keys: seq<KeyEvent>, tail: seq<byte>)
    requires WfLine(l) && (forall i :: 0 <= i < |keys| ==> keys[i].Scan?) && |l.text| + |tail| == MAX_SIZE
    ensures TailKeyed(l, keys, tail) != []
    ensures TailKeyed(l, keys, tail)[0] == NUL <==> tail[0] == NUL || Blanked(l, keys)
    decreases |keys|
  {
    if keys != [] {
      var now, behind := Key(l, keys[0].code, keys[0].next), TailAfter(l, keys[0].code, keys[0].next, tail);
      KeyKeepsWf(l, keys[0].code, keys[0].next);
      FirstBehindLine(now, keys[1..], behind);
    }
  }

  /** Every key of the sequence puts a character into the line. */
  predicate AllInsert(l: Line, keys: seq<KeyEvent>)
    requires WfLine(l) && forall i :: 0 <= i < |keys| ==> keys[i].Scan?
    decreases |keys|
  {
    keys != [] ==>
      (KeyKeepsWf(l, keys[0].code, keys[0].next);
       var now := Key(l, keys[0].code, keys[0].next);
       |now.text| > |l.text| && AllInsert(now, keys[1..]))
  }

  /** Characters typed push the first byte along, and leave the bytes behind it where they are. */
  lemma {:induction false} TypedTail(l: Line, keys: seq<KeyEvent>, tail: seq<byte>)
    requires WfLine(l) && (forall i :: 0 <= i < |keys| ==> keys[i].Scan?) && |l.text| + |tail| == MAX_SIZE
    requires AllInsert(l, keys)
    ensures |keys| < |tail| && TailKeyed(l, keys, tail) == [tail[0]] + tail[|keys| + 1..]
    decreases |keys|
  {
    if keys != [] {
      var now, behind := Key(l, keys[0].code, keys[0].next), TailAfter(l, keys[0].code, keys[0].next, tail);
      KeyKeepsWf(l, keys[0].code, keys[0].next);
      assert behind == Pushed(tail);
      TypedTail(now, keys[1..], behind);
      assert behind[|keys|..] == tail[|keys| + 1..];
    }
  }

  // ---- The shift loops ----

  /** A buffer in which everything from `p` up to the terminator at `length` has moved right. */
  ghost function Opened(was: Buffer, p: nat, length: nat): seq<byte>
    requires p <= length + 1 < MAX_SIZE
  {
    was[..p + 1] + was[p..length + 1] + was[length + 2..]
  }

  lemma OpenedNext(was: Buffer, p: nat, length: nat)
    requires 0 < p <= length + 1 < MAX_SIZE
    ensures Opened(was, p, length)[p - 1] == was[p - 1]
    ensures Opened(was, p, length)[p := was[p - 1]] == Opened(was, p - 1, length)
  {
  }

  lemma OpenedEnds(was: Buffer, p: nat, length: nat, c: byte)
    requires p <= length && length + 1 < MAX_SIZE
    ensures Opened(was, length + 1, length) == was
    ensures var now := Opened(was, p, length)[p := c];
            && now[..length + 1] == was[..length][..p] + [c] + was[..length][p..]
            && now[length + 1..] == Pushed(was[length..])
  {
  }

  /** A buffer in which everything behind `i` and up to `k` has moved left. */
  ghost function Closed(was: Buffer, i: nat, k: nat): seq<byte>
    requires i <= k < MAX_SIZE
  {
    was[..i] + was[i + 1..k + 1] + was[k..]
  }

  lemma ClosedNext(was: Buffer, i: nat, k: nat)
    requires i <= k && k + 1 < MAX_SIZE
    ensures Closed(was, i, k)[k + 1] == was[k + 1]
    ensures Closed(was, i, k)[k := was[k + 1]] == Closed(was, i, k + 1)
  {
  }

  lemma ClosedEnds(was: Buffer, i: nat, length: nat)
    requires i < length < MAX_SIZE
    ensures Closed(was, i, i) == was
    ensures Closed(was, i, length)[..length - 1] == Without(was[..length], i)
    ensures Closed(was, i, length)[length - 1..] == Pulled(was[length..])
  {
  }

  /** A buffer whose first `n` bytes are blanked. */
  ghost function BlankedTo(was: Buffer, n: nat): (r: seq<byte>)
    requires n <= MAX_SIZE
    ensures |r| == MAX_SIZE
  {
    seq(n, _ => NUL) + was[n..]
  }

  lemma BlankedNext(was: Buffer, n: nat)
    requires n < MAX_SIZE
    ensures BlankedTo(was, n)[n] == was[n]
    ensures BlankedTo(was, n)[n := NUL] == BlankedTo(was, n + 1)
  {
  }

  /** A line is empty exactly when its terminator comes first. */
  lemma StartsNul(was: Buffer, length: nat)
    requires length < MAX_SIZE && was[length] == NUL && Typed(was[..length])
    ensures was[0] == NUL <==> length == 0
  {
    if length > 0 {
      assert was[..length][0] == was[0];
    }
  }

  /** What the reader gets that comes after a read of no bytes and then some keys: the line the keys make,
      and behind it what they have left of the buffer `was`, in which the old line had `full` characters. */
  predicate SecondRead(taken: Line, keys: seq<KeyEvent>, was: Buffer, full: nat, nbytes: nat, buf: seq<byte>)
    requires WfLine(taken) && taken.text == [] && (forall i :: 0 <= i < |keys| ==> keys[i].Scan?) && nbytes <= MAX_SIZE
  {
    var line := Keyed(taken, keys).text;
    && buf == (line + TailKeyed(taken, keys, was))[..nbytes]
    && (|line| < nbytes ==> (buf[|line|] == NUL <==> full == 0 || Blanked(taken, keys)))
  }

  lemma SecondReader(taken: Line, keys: seq<KeyEvent>, was: Buffer, full: nat, nbytes: nat)
    requires WfLine(taken) && taken.text == [] && (forall i :: 0 <= i < |keys| ==> keys[i].Scan?) && nbytes <= MAX_SIZE
    requires was[0] == NUL <==> full == 0
    ensures SecondRead(taken, keys, was, full, nbytes,
                       (Keyed(taken, keys).text + TailKeyed(taken, keys, was))[..nbytes])
  {
    FirstBehindLine(taken, keys, was);
  }

  /** The command buffer of one tty and what goes with it. */
  class CommandLine {
    const buffer: array<byte>
    var length: nat
    var cursor: nat
    var flags: Flags
    var ready: bool

    ghost predicate Sized()
      reads this
    {
      buffer.Length == MAX_SIZE && length < MAX_SIZE && cursor <= length
    }

    ghost predicate Editable()
      reads this, buffer
    {
      Sized() && Typed(buffer[..length])
    }

    ghost predicate Valid()
      reads this, buffer
    {
      Editable() && buffer[length] == NUL
    }

    /** The editor's line: what the buffer holds before its terminator. */
    ghost function Shown(): Line
      requires length <= buffer.Length
      reads this, buffer
    {
      Line(buffer[..length], cursor, flags, ready)
    }

    /** The rest of the buffer: the terminator and what stands behind it. */
    ghost function Tail(): seq<byte>
      requires length <= buffer.Length
      reads this, buffer
    {
      buffer[length..]
    }

    constructor ()
      ensures Valid() && Shown() == EMPTY && fresh(buffer)
    {
      buffer := new byte[MAX_SIZE](_ => NUL);
      length, cursor, ready := 0, 0, false;
      flags := Flags(false, false, false, false);
    }

    /** The shift loop of place_character_at_index. */
    method MakeRoom()
      requires Sized() && length + 1 < MAX_SIZE
      modifies buffer
      ensures buffer[..] == Opened(old(buffer[..]), cursor, length)
    {
      ghost var was := buffer[..];
      OpenedEnds(was, cursor, length, NUL);
      var end: int := length;
      while cursor <= end
        invariant cursor - 1 <= end <= length
        invariant buffer[..] == Opened(was, end + 1, length)
      {
        OpenedNext(was, end + 1, length);
        ghost var before := buffer[..];
        assert buffer[end] == before[end];
        buffer[end + 1] := buffer[end];
        assert buffer[..] == before[end + 1 := before[end]];
        end := end - 1;
      }
    }

    /** place_character_at_index, on whatever the buffer holds. */
    method PlaceByte(c: byte)
      requires Sized() && length + 1 < MAX_SIZE
      modifies this`length, this`cursor, buffer
      ensures Sized() && length == old(length) + 1 && cursor == old(cursor) + 1
      ensures buffer[..] == Opened(old(buffer[..]), old(cursor), old(length))[old(cursor) := c]
    {
      MakeRoom();
      buffer[cursor] := c;
      length := length + 1;
      cursor := cursor + 1;
    }

    /** place_character_at_index on a line: the rest of the line and its terminator move right. */
    method PlaceCharacter(c: byte)
      requires Editable() && length + 1 < MAX_SIZE && 32 <= c <= 126
      modifies this`length, this`cursor, buffer
      ensures Editable() && Shown() == Insert(old(Shown()), c) && Tail() == Pushed(old(Tail()))
    {
      EditsKeepWf(Shown(), c);
      OpenedEnds(buffer[..], cursor, length, c);
      PlaceByte(c);
      assert buffer[..length] == buffer[..][..length] && buffer[length..] == buffer[..][length..];
    }

    /** The shift loop of backspace and delete: everything behind `i`, terminator included, moves
        left. */
    method RemoveAt(i: nat)
      requires Editable() && i < length
      modifies this`length, buffer
      ensures length == old(length) - 1 && Tail() == Pulled(old(Tail()))
      ensures buffer[..length] == Without(old(buffer[..length]), i)
    {
      ghost var was := buffer[..];
      ClosedEnds(was, i, length);
      var k := i;
      while k < length
        modifies buffer
        invariant i <= k <= length
        invariant buffer[..] == Closed(was, i, k)
      {
        ClosedNext(was, i, k);
        buffer[k] := buffer[k + 1];
        k := k + 1;
      }
      assert buffer[..length - 1] == buffer[..][..length - 1] && buffer[length - 1..] == buffer[..][length - 1..];
      assert was[..length] == old(buffer[..length]);
      length := length - 1;
    }

    method EraseBefore()
      requires Editable()
      modifies this`length, this`cursor, buffer
      ensures Editable() && Shown() == Backspace(old(Shown()))
      ensures Tail() == if old(cursor) == 0 then old(Tail()) else Pulled(old(Tail()))
    {
      EditsKeepWf(Shown(), 32);
      if cursor > 0 {
        RemoveAt(cursor - 1);
        cursor := cursor - 1;
      }
    }

    method EraseAt()
      requires Editable()
      modifies this`length, buffer
      ensures Editable() && Shown() == Delete(old(Shown()))
      ensures Tail() == if old(cursor) == old(length) then old(Tail()) else Pulled(old(Tail()))
    {
      EditsKeepWf(Shown(), 32);
      if cursor < length {
        RemoveAt(cursor);
      }
    }

    /** Ctrl-L: the line is blanked and handed to the reader. */
    method ClearLine()
      requires Editable()
      modifies this, buffer
      ensures Editable() && Shown() == Line([], 0, old(flags).(ctrl := false), true)
      ensures Tail() == BlankedTo(old(buffer[..]), old(length))
    {
      ghost var was := buffer[..];
      for i := 0 to length
        modifies buffer
        invariant buffer[..] == BlankedTo(was, i)
      {
        BlankedNext(was, i);
        buffer[i] := NUL;
      }
      length, cursor, ready := 0, 0, true;
      flags := flags.(ctrl := false);
      assert buffer[0..] == buffer[..];
    }

    /** The keys that change flags, the cursor or nothing, but no text. */
    method ProcessControl(code: byte, next: byte)
      requires Editable() && !IsEdit(Shown(), code)
      modifies this`flags, this`cursor, this`ready
      ensures Editable() && Shown() == Key(old(Shown()), code, next)
    {
      if code == MAKE_ENTER {
        ready := true;
      } else if code == MAKE_CAPS {
        flags := flags.(caps := !flags.caps);
      } else if code == MAKE_L_SHFT || code == MAKE_R_SHFT {
        flags := flags.(shift := true);
      } else if code == BREAK_L_SHFT || code == BREAK_R_SHFT {
        flags := flags.(shift := false);
      } else if code == MAKE_L_CTRL {
        flags := flags.(ctrl := true);
      } else if code == BREAK_L_CTRL {
        flags := flags.(ctrl := false);
      } else if code == MAKE_L_ALT {
        flags := flags.(alt := true);
      } else if code == BREAK_L_ALT {
        flags := flags.(alt := false);
      } else if MAKE_F1 <= code <= MAKE_F3 {
      } else if code == EXTRAS {
        if next == MAKE_L_ARROW && cursor > 0 {
          cursor := cursor - 1;
        } else if next == MAKE_R_ARROW && cursor < length {
          cursor := cursor + 1;
        } else if next == MAKE_L_CTRL {
          flags := flags.(ctrl := true);
        } else if next == BREAK_L_CTRL {
          flags := flags.(ctrl := false);
        }
      }
    }

    /** process_keyboard_input, for everything but a change of tty. */
    method ProcessKey(code: byte, next: byte)
      requires Editable()
      modifies this, buffer
      ensures Editable() && Shown() == Key(old(Shown()), code, next)
      ensures Tail() == TailAfter(old(Shown()), code, next, old(Tail()))
    {
      TailCases(Shown(), code, next, Tail());
      if !flags.ctrl && IsCharKey(code) {
        if length + 1 < MAX_SIZE {
          PlaceCharacter(KeyChar(flags.shift, flags.caps, code));
        }
      } else if code == MAKE_BKSP {
        EraseBefore();
      } else if code == MAKE_DELETE {
        EraseAt();
      } else if flags.ctrl && code == MAKE_L {
        ClearLine();
      } else {
        ProcessControl(code, next);
      }
    }

    /** A line stays in order under every key. */
    method KeepOrder(code: byte, next: byte)
      requires Valid()
      modifies this, buffer
      ensures Valid() && Shown() == Key(old(Shown()), code, next)
    {
      TailKeepsFirst(Shown(), code, next, Tail());
      ProcessKey(code, next);
      assert buffer[length] == Tail()[0];
    }

    /** terminal_read's copy loop: what is copied is blanked. */
    method CopyOut(nbytes: int) returns (buf: seq<byte>)
      requires buffer.Length == MAX_SIZE && nbytes <= MAX_SIZE
      modifies buffer
      ensures |buf| == (if nbytes < 0 then 0 else nbytes) && buf == old(buffer[..])[..|buf|]
      ensures buffer[..] == BlankedTo(old(buffer[..]), |buf|)
    {
      ghost var was := buffer[..];
      buf := [];
      var i := 0;
      while i < nbytes
        invariant 0 <= i && (i <= nbytes || nbytes < 0 == i) && buf == was[..i]
        invariant buffer[..] == BlankedTo(was, i)
      {
        BlankedNext(was, i);
        assert buffer[i] == buffer[..][i];
        buf := buf + [buffer[i]];
        buffer[i] := NUL;
        i := i + 1;
      }
    }

    /** terminal_read's copy loop and reset: the reader gets what the buffer holds, a line being
        followed by its terminator. The buffer is fit for use again exactly when at least one byte was
        asked for or the line was empty. */
    method TakeLine(nbytes: int) returns (buf: seq<byte>)
      requires Sized() && nbytes <= MAX_SIZE
      modifies this, buffer
      ensures |buf| == (if nbytes < 0 then 0 else nbytes) && buf == old(buffer[..])[..|buf|]
      ensures buffer[..] == BlankedTo(old(buffer[..]), |buf|)
      ensures Sized() && length == 0 && cursor == 0 && !ready && flags == old(flags)
      ensures old(Valid()) ==> (Valid() <==> nbytes >= 1 || old(length) == 0)
      ensures old(Valid()) && Valid() ==> Shown() == Taken(old(Shown()))
    {
      assert length == 0 || buffer[..length][0] == buffer[0];
      buf := CopyOut(nbytes);
      length, cursor, ready := 0, 0, false;
      assert buffer[0] == buffer[..][0];
    }

    /** A sequence of keys for this tty. */
    method ProcessKeys(keys: seq<KeyEvent>)
      requires Editable() && forall i :: 0 <= i < |keys| ==> keys[i].Scan?
      modifies this, buffer
      ensures Editable() && Shown() == Keyed(old(Shown()), keys)
      ensures Tail() == TailKeyed(old(Shown()), keys, old(Tail()))
      decreases |keys|
    {
      if keys != [] {
        ProcessKey(keys[0].code, keys[0].next);
        ProcessKeys(keys[1..]);
      }
    }

    /** A read of no bytes does not blank the line it takes. Whatever keys follow, the next reader gets
        the line they make and then what they have left of the old one; the new line is terminated
        exactly when there was no old line, or Ctrl-L has blanked a line since. */
    method ReadAfterEmptyRead(none: int, keys: seq<KeyEvent>, nbytes: nat) returns (buf: seq<byte>)
      requires Valid() && none < 1 && nbytes <= MAX_SIZE && forall i :: 0 <= i < |keys| ==> keys[i].Scan?
      modifies this, buffer
      ensures SecondRead(Taken(old(Shown())), keys, old(buffer[..]), old(length), nbytes, buf)
    {
      ghost var was, taken, full := buffer[..], Taken(Shown()), length;
      StartsNul(was, length);
      assert buffer[..length] == was[..length];
      var nothing := TakeLine(none);
      assert buffer[..] == was && Tail() == was && buffer[..0] == [];
      ProcessKeys(keys);
      assert buffer[..] == Shown().text + Tail();
      SecondReader(taken, keys, was, full, nbytes);
      buf := TakeLine(nbytes);
    }
  }

  /** What a read of `nbytes` bytes gives: the line, cut off or followed by its terminator. */
  predicate Delivers(text: seq<byte>, nbytes: nat, buf: seq<byte>) {
    && |buf| == nbytes
    && (nbytes <= |text| ==> buf == text[..nbytes])
    && (nbytes > |text| ==> text + [NUL] <= buf)
  }

  /** As much of a line and its terminator as a read of `nbytes` bytes asks for. */
  function Start(text: seq<byte>, nbytes: nat): seq<byte> { (text + [NUL])[..Min(nbytes, |text| + 1)] }

  lemma DeliversStart(text: seq<byte>, nbytes: nat, buf: seq<byte>)
    ensures Delivers(text, nbytes, buf) <==> |buf| == nbytes && Start(text, nbytes) <= buf
  {
    if nbytes <= |text| {
      assert Start(text, nbytes) == text[..nbytes];
    } else {
      assert Start(text, nbytes) == text + [NUL];
    }
  }

  lemma StartEnds(text: seq<byte>, nbytes: nat, buf: seq<byte>)
    requires |text| < nbytes == |buf| && Start(text, nbytes) <= buf
    ensures buf[|text|] == NUL
  {
    assert Start(text, nbytes)[|text|] == NUL;
  }

  lemma StartGoesOn(text: seq<byte>, nbytes: nat, buf: seq<byte>, k: nat)
    requires Typed(text) && k < nbytes == |buf| && k < |text| && Start(text, nbytes) <= buf
    ensures buf[k] != NUL
  {
    assert Start(text, nbytes)[k] == text[k];
  }

  lemma StartsAgree(a: seq<byte>, b: seq<byte>, nbytes: nat, buf: seq<byte>)
    requires Typed(a) && Typed(b) && |buf| == nbytes && Start(a, nbytes) <= buf && Start(b, nbytes) <= buf
    requires |Start(a, nbytes)| <= |Start(b, nbytes)|
    ensures Start(a, nbytes) == Start(b, nbytes)
  {
    if |Start(a, nbytes)| < |Start(b, nbytes)| {
      StartEnds(a, nbytes, buf);
      StartGoesOn(b, nbytes, buf, |a|);
      assert false;
    }
  }

  /** What one line delivers another delivers as well exactly when they agree as far as is asked for. */
  lemma SameDelivered(a: seq<byte>, b: seq<byte>, nbytes: nat, buf: seq<byte>)
    requires Typed(a) && Typed(b) && Delivers(a, nbytes, buf)
    ensures Delivers(b, nbytes, buf) <==> Start(a, nbytes) == Start(b, nbytes)
  {
    DeliversStart(a, nbytes, buf);
    DeliversStart(b, nbytes, buf);
    if Delivers(b, nbytes, buf) {
      if |Start(a, nbytes)| <= |Start(b, nbytes)| {
        StartsAgree(a, b, nbytes, buf);
      } else {
        StartsAgree(b, a, nbytes, buf);
      }
    }
  }

  lemma LineDelivered(was: Buffer, length: nat, nbytes: nat)
    requires length < MAX_SIZE && was[length] == NUL && nbytes <= MAX_SIZE
    ensures Delivers(was[..length], nbytes, was[..nbytes])
  {
    if nbytes > length {
      assert was[..nbytes][..length + 1] == was[..length] + [NUL];
    }
  }

  /** The driver: a command line per tty and the active tty. */
  class Driver {
    const lines: seq<CommandLine>
    var active: nat

    ghost function Footprint(): set<object> {
      if |lines| != 3 then {}
      else {lines[0], lines[1], lines[2], lines[0].buffer, lines[1].buffer, lines[2].buffer}
    }

    ghost predicate Valid()
      reads this, Footprint()
    {
      && |lines| == 3 && active < 3
      && (forall i, j :: 0 <= i < j < 3 ==> lines[i] != lines[j] && lines[i].buffer != lines[j].buffer)
      && (forall i :: 0 <= i < 3 ==> lines[i].Valid())
    }

    ghost function Shown(): (d: Desk)
      requires Valid()
      reads this, Footprint()
      ensures WfDesk(d)
    {
      Desk([lines[0].Shown(), lines[1].Shown(), lines[2].Shown()], active)
    }

    /** keyboard_open */
    constructor ()
      ensures Valid() && Shown() == Desk([EMPTY, EMPTY, EMPTY], 0)
    {
      var a := new CommandLine();
      var b := new CommandLine();
      var c := new CommandLine();
      lines := [a, b, c];
      active := 0;
    }

    /** The active tty's command line, whose buffer holds the line shown. */
    method ActiveLine() returns (line: CommandLine)
      requires Valid()
      ensures line == lines[active] && line in Footprint() && line.buffer in Footprint() && line.Valid()
      ensures line.buffer[..line.length] == Shown().lines[active].text
    {
      line := lines[active];
    }

    /** A key for the active tty leaves the other two ttys alone. */
    method Deliver(code: byte, next: byte)
      requires Valid()
      modifies Footprint()
      ensures Valid()
      ensures var d := old(Shown()); Shown() == d.(lines := d.lines[active := Key(d.lines[active], code, next)])
    {
      var line := lines[active];
      assert forall i :: 0 <= i < 3 && i != active ==> lines[i] != line && lines[i].buffer != line.buffer;
      line.KeepOrder(code, next);
    }

    /** process_keyboard_input */
    method Process(code: byte, next: byte)
      requires Valid()
      modifies this`active, Footprint()
      ensures Valid() && Shown() == Press(old(Shown()), code, next)
    {
      if MAKE_F1 <= code <= MAKE_F3 {
        if lines[active].flags.alt {
          var terminal := code % 8 - 3;
          if terminal != active {
            active := terminal;
          }
        }
      } else {
        Deliver(code, next);
      }
    }

    /** The active tty's line is taken; the other two ttys are left alone. */
    method Take(nbytes: int) returns (buf: seq<byte>)
      requires Valid() && 1 <= nbytes <= MAX_SIZE
      modifies Footprint()
      ensures Valid() && Shown() == Step(old(Shown()), TakeLine)
      ensures buf == old(lines[active].buffer[..])[..nbytes]
    {
      var line := lines[active];
      assert forall i :: 0 <= i < 3 && i != active ==> lines[i] != line && lines[i].buffer != line.buffer;
      buf := line.TakeLine(nbytes);
    }

    /** terminal_read for a program on `tty`, once Enter has made that tty's line ready: it takes the
        line of whichever tty is active by then. */
    method Read(tty: nat, nbytes: int) returns (buf: seq<byte>)
      requires Valid() && 1 <= nbytes <= MAX_SIZE && tty < 3 && Shown().lines[tty].ready
      modifies Footprint()
      ensures Valid() && Shown() == Step(old(Shown()), TakeLine)
      ensures Delivers(old(Shown()).lines[active].text, nbytes, buf)
    {
      var line := lines[active];
      LineDelivered(line.buffer[..], line.length, nbytes);
      assert line.buffer[..line.length] == line.buffer[..][..line.length];
      buf := Take(nbytes);
    }

    /** keyboard_interruption: every queued scancode in turn. For any sequence of scancodes and
        changes of tty, each tty's buffer holds the line of the simple editor. */
    method Interrupt(codes: seq<KeyEvent>)
      requires Valid() && forall i :: 0 <= i < |codes| ==> codes[i].Scan?
      modifies this`active, Footprint()
      ensures Valid() && Shown() == Run(old(Shown()), codes)
    {
      ghost var d := Shown();
      for i := 0 to |codes|
        invariant Valid() && Run(d, codes) == Run(Shown(), codes[i..])
      {
        assert codes[i..][0] == codes[i] && codes[i..][1..] == codes[i + 1..];
        Process(codes[i].code, codes[i].next);
      }
    }
  }
}

/** The user program cat on top of the kernel: open, then read and write until the end. */
module Cat {
  import opened Basics
  import opened FileSystem
  import opened Processes
  import opened Chains
  import opened Runs
  import opened Descriptors
  import opened Isolation
  import opened Kernel
  import opened Interludes

  predicate RegularFile(d: Disk, name: string, n: nat)
    requires ValidDisk(d)
  {
    Lookup(d, name).Some? && Lookup(d, name).value.inode == n && Lookup(d, name).value.filetype == 2
  }

  /** Names that open does not take for the standard streams. */
  predicate PlainName(name: string) { !StartsWith(name, "stdin") && !StartsWith(name, "stdou") }

  /** A 1024-byte read at a multiple of 1024 consults only the block it starts in. */
  lemma AlignedRead(d: Disk, n: nat, position: nat)
    requires ValidDisk(d) && n < |d.inodes| && position % 1024 == 0
    ensures ReadFails(d, n, position, 1024) <==>
            position < d.inodes[n].size && !BlockOk(d, n, position / PAGE_SIZE)
  {
    if position < d.inodes[n].size {
      assert LastConsulted(d, n, position, 1024) / PAGE_SIZE == position / PAGE_SIZE;
    }
  }

  lemma RegionSparesKernel(d: Disk, s: State, a: Ttys, c: ReadCall)
    requires ValidDisk(d) && Represents(s, a) && |ReadReply(d, s, c).bytes| <= 0x8000_0000
    requires MB128 <= c.buf <= MB128 + MB4
    ensures KernelSpared(d, s, c)
  {
    SparedIff(d, s, a, c);
    forall i | 0 <= i < |ReadReply(d, s, c).bytes| ensures !(MB4 <= Onward(c.buf, i) < MB8) {
      assert Onward(c.buf, i) == c.buf + i;
    }
  }

  lemma ReplyOfRegularFile(d: Disk, s: State, a: Ttys, c: ReadCall, name: string, n: nat, position: nat)
    requires ValidDisk(d) && Represents(s, a) && c.fd >= 0 && c.buf != 0 && Reading(s, s.current, c.fd, name, position)
    requires RegularFile(d, name, n) && 0 <= c.nbytes < 0x8000_0000
    requires n < |d.inodes| ==> position <= |Content(d, n)|
    ensures var reply := ReadReply(d, s, c);
            && (reply.ret == -1 <==> ReadFails(d, n, position, c.nbytes)) && |reply.bytes| <= c.nbytes
            && (n < |d.inodes| && reply.ret != -1 ==>
                  reply.bytes == Slice(Content(d, n), position, c.nbytes) && reply.ret == |reply.bytes|)
  {
    MeIsRunning(s, a);
    SmallIsUnwrapped(c.nbytes);
    if n < |d.inodes| {
      ReplyOfFile(d, s, a, c, name, n, position);
    }
    ReadFailsIff(d, n, position, c.nbytes);
    ReadAtMost(d, name, U32(position), c.nbytes);
  }

  /** The program's loads of bytes of its memory. */
  method Fetch(k: Kernel, at: Address, count: nat, ghost seat: Seat, ghost bytes: seq<byte>) returns (piece: seq<byte>)
    requires k.Abs() == seat.s && Sound(seat) && |bytes| == count && InRegion(at, count)
    requires FindsAt(seat.s, seat.s.current, at, bytes)
    ensures piece == bytes
  {
    piece := [];
    for i := 0 to count
      invariant piece == bytes[..i]
    {
      var physical := Translate(k.pageDirectories[k.cr3], k.newPageTable, at + i, true);
      assert UserByte(seat.s, seat.s.current, at + i - MB128) == bytes[i];
      piece := piece + [if physical.Some? && physical.value in k.memory then k.memory[physical.value] else 0];
    }
  }

  /** What a read has stored in the caller's buffer is what the caller then finds there. */
  lemma Delivered(d: Disk, s: State, a: Ttys, c: ReadCall)
    requires ValidDisk(d) && Represents(s, a) && InRegion(c.buf, |ReadReply(d, s, c).bytes|)
    ensures Wf(ReadDone(d, s, c)) && FindsAt(ReadDone(d, s, c), s.current, c.buf, ReadReply(d, s, c).bytes)
  {
    ReadKeepsWf(d, s, c);
    forall i | 0 <= i < |ReadReply(d, s, c).bytes|
      ensures UserByte(ReadDone(d, s, c), s.current, c.buf + i - MB128) == ReadReply(d, s, c).bytes[i]
    {
      ReadDelivers(d, s, a, c, i, c.buf + i - MB128);
    }
  }

  /** What a read of a regular file into the caller's own region returns, leaves and delivers. */
  lemma RegularRead(d: Disk, seat: Seat, c: ReadCall, name: string, n: nat, position: nat)
    requires ValidDisk(d) && c.fd >= 0 && Poised(seat, c.fd, name, position)
    requires RegularFile(d, name, n) && 0 <= c.nbytes && InRegion(c.buf, c.nbytes)
    requires n < |d.inodes| ==> position <= |Content(d, n)|
    ensures var reply, now := ReadReply(d, seat.s, c), Seat(ReadDone(d, seat.s, c), seat.a);
            && KernelSpared(d, seat.s, c) && Sound(now) && now.s.current == seat.s.current
            && (reply.ret == -1 <==> ReadFails(d, n, position, c.nbytes))
            && |reply.bytes| <= c.nbytes && FindsAt(now.s, now.s.current, c.buf, reply.bytes)
            && (reply.ret != -1 ==>
                  && n < |d.inodes| && reply.ret == |reply.bytes|
                  && reply.bytes == Slice(Content(d, n), position, c.nbytes)
                  && Poised(now, c.fd, name, position + |reply.bytes|))
  {
    ReplyOfRegularFile(d, seat.s, seat.a, c, name, n, position);
    RegionSparesKernel(d, seat.s, seat.a, c);
    ReadSimulates(d, seat.s, seat.a, c);
    Delivered(d, seat.s, seat.a, c);
    if ReadReply(d, seat.s, c).ret != -1 {
      PositionMoves(d, seat.s, seat.a, c, name, position, position + ReadReply(d, seat.s, c).ret);
    }
  }

  /** The read system call itself. */
  method ReadRegular(k: Kernel, call: ReadCall, ghost seat: Seat, ghost name: string, ghost n: nat, ghost position: nat)
    returns (count: int, ghost bytes: seq<byte>, ghost now: Seat)
    requires ValidDisk(k.disk) && k.Abs() == seat.s && call.fd >= 0 && Poised(seat, call.fd, name, position)
    requires RegularFile(k.disk, name, n) && 0 <= call.nbytes && InRegion(call.buf, call.nbytes)
    requires n < |k.disk.inodes| ==> position <= |Content(k.disk, n)|
    modifies k`pcbs, k`dirReads, k`memory
    ensures k.Abs() == now.s && Sound(now) && now.s.current == seat.s.current && KernelSpared(k.disk, seat.s, call)
    ensures |bytes| <= call.nbytes && FindsAt(now.s, now.s.current, call.buf, bytes)
    ensures count == -1 <==> ReadFails(k.disk, n, position, call.nbytes)
    ensures count != -1 ==>
              && n < |k.disk.inodes| && count == |bytes| && bytes == Slice(Content(k.disk, n), position, call.nbytes)
              && Poised(now, call.fd, name, position + |bytes|)
  {
    RegularRead(k.disk, seat, call, name, n, position);
    bytes, now := ReadReply(k.disk, seat.s, call).bytes, Seat(ReadDone(k.disk, seat.s, call), seat.a);
    count := k.ReadFile(call);
  }

  /** One read system call of a regular file by the current process, into `nbytes` bytes of its memory
      at `at`, from where the program then takes them. Other processes may run before the call and
      before the bytes are taken. */
  method NextPiece(k: Kernel, fd: nat, at: Address, nbytes: nat, others: Others, i: nat,
                   ghost seat: Seat, ghost name: string, ghost n: nat, ghost position: nat)
    returns (count: int, piece: seq<byte>, ghost now: Seat)
    requires ValidDisk(k.disk) && k.Abs() == seat.s && Schedule(k.disk, others, seat.s.current)
    requires Poised(seat, fd, name, position) && RegularFile(k.disk, name, n) && InRegion(at, nbytes)
    requires n < |k.disk.inodes| ==> position <= |Content(k.disk, n)|
    modifies k
    ensures k.Abs() == now.s && now.s.current == seat.s.current
    ensures count == -1 <==> ReadFails(k.disk, n, position, nbytes)
    ensures count != -1 ==>
              && n < |k.disk.inodes| && count == |piece| && piece == Slice(Content(k.disk, n), position, nbytes)
              && Poised(now, fd, name, position + |piece|)
  {
    now := PausePoised(k, others, 2 * i, seat, fd, name, position);
    ghost var bytes, es;
    count, bytes, now := ReadRegular(k, ReadCall(fd, at, nbytes, []), now, name, n, position);
    ghost var read := now;
    now, es := PauseHolding(k, others, 2 * i + 1, read, at, bytes);
    piece := [];
    if count != -1 {
      PauseKeepsPoised(k.disk, read, es, fd, name, position + |bytes|);
      piece := Fetch(k, at, count, now, bytes);
    }
  }

  /** open of a plain regular file: the current process then reads it from the start. */
  method OpenRegular(k: Kernel, name: string, ghost seat: Seat, ghost n: nat) returns (fd: int, ghost now: Seat)
    requires ValidDisk(k.disk) && k.Abs() == seat.s && Sound(seat) && PlainName(name)
    requires Lookup(k.disk, name).Some? ==> RegularFile(k.disk, name, n)
    modifies k`pcbs
    ensures k.Abs() == now.s && now.s.current == seat.s.current
    ensures fd == OpenReturn(k.disk, seat.s, name)
    ensures fd != -1 ==> 2 <= fd < 8 && RegularFile(k.disk, name, n) && Poised(now, fd, name, 0)
  {
    OpenSimulates(k.disk, seat.s, seat.a, name);
    OpenedAtStart(k.disk, seat.s, seat.a, name);
    MeIsRunning(seat.s, seat.a);
    now := Seat(OpenNext(k.disk, seat.s, name), seat.a);
    fd := k.OpenFile(name);
  }

  /** A piece of 1024 bytes lies in one block. */
  lemma PieceInBlock(position: nat, i: nat)
    requires position % 1024 == 0 && position <= i < position + 1024
    ensures i / PAGE_SIZE == position / PAGE_SIZE
  {
    var b, r := position / PAGE_SIZE, position % PAGE_SIZE;
    assert r == 1024 * (position / 1024 - 4 * b) && r < PAGE_SIZE;
    assert r <= 3072 && PAGE_SIZE * b <= i < PAGE_SIZE * (b + 1);
  }

  lemma BlocksBelowGrow(d: Disk, n: nat, position: nat, count: nat)
    requires ValidDisk(d) && n < |d.inodes| && position % 1024 == 0 && count <= 1024
    requires position + count <= d.inodes[n].size
    requires BlocksBelow(d, n, position) && BlockOk(d, n, position / PAGE_SIZE)
    ensures BlocksBelow(d, n, position + count)
  {
    forall i | position <= i < position + count ensures BlockOk(d, n, i / PAGE_SIZE) {
      PieceInBlock(position, i);
    }
  }

  /** What is written so far: whole pieces of the file, from blocks that can be read. */
  predicate Written(d: Disk, n: nat, output: seq<byte>)
    requires ValidDisk(d)
  {
    n < |d.inodes| ==>
      && output <= Content(d, n) && (|output| % 1024 == 0 || output == Content(d, n))
      && BlocksBelow(d, n, |output|)
  }

  lemma WrittenGrows(d: Disk, n: nat, output: seq<byte>, piece: seq<byte>)
    requires ValidDisk(d) && n < |d.inodes| && Written(d, n, output) && |output| < |Content(d, n)|
    requires |piece| == Min(1024, |Content(d, n)| - |output|)
    requires piece == Content(d, n)[|output|..|output| + |piece|]
    requires BlockOk(d, n, |output| / PAGE_SIZE)
    ensures Written(d, n, output + piece)
  {
    BlocksBelowGrow(d, n, |output|, |piece|);
  }

  /** What the next read says about the whole file. */
  lemma NextRead(d: Disk, n: nat, output: seq<byte>)
    requires ValidDisk(d) && n < |d.inodes| && Written(d, n, output)
    ensures ReadFails(d, n, |output|, 1024) ==> !DataBlocksOk(d, n) && output == Legible(d, n)
    ensures !ReadFails(d, n, |output|, 1024) && |output| < |Content(d, n)| ==> BlockOk(d, n, |output| / PAGE_SIZE)
  {
    if |output| % 1024 == 0 {
      AlignedRead(d, n, |output|);
    }
    if ReadFails(d, n, |output|, 1024) {
      LegibleIs(d, n, |output|);
      LegibleIs(d, n, |output| + 1);
      assert !BlocksBelow(d, n, |output| + 1);
    }
  }

  /** What the result of a round says about the file and about what is written. */
  predicate RoundDone(d: Disk, n: nat, output: seq<byte>, count: int, piece: seq<byte>)
    requires ValidDisk(d)
  {
    if n >= |d.inodes| then count == -1
    else if count == -1 then !DataBlocksOk(d, n) && output == Legible(d, n)
    else if count == 0 then output == Content(d, n) && DataBlocksOk(d, n)
    else count == |piece| && 0 < |piece| <= |Content(d, n)| - |output| && Written(d, n, output + piece)
  }

  lemma RoundIsDone(d: Disk, n: nat, output: seq<byte>, count: int, piece: seq<byte>)
    requires ValidDisk(d) && Written(d, n, output) && (count == -1 <==> ReadFails(d, n, |output|, 1024))
    requires count != -1 ==> count == |piece| && piece == Slice(Content(d, n), |output|, 1024)
    ensures RoundDone(d, n, output, count, piece)
  {
    if n < |d.inodes| {
      NextRead(d, n, output);
      if count > 0 {
        WrittenGrows(d, n, output, piece);
      }
    }
  }

  /** One round of cat's loop. */
  method CopyPiece(k: Kernel, fd: nat, at: Address, output: seq<byte>, others: Others, i: nat,
                   ghost seat: Seat, ghost name: string, ghost n: nat)
    returns (count: int, piece: seq<byte>, ghost now: Seat)
    requires ValidDisk(k.disk) && k.Abs() == seat.s && Schedule(k.disk, others, seat.s.current)
    requires Poised(seat, fd, name, |output|) && RegularFile(k.disk, name, n) && InRegion(at, 1024)
    requires Written(k.disk, n, output)
    modifies k
    ensures k.Abs() == now.s && now.s.current == seat.s.current && RoundDone(k.disk, n, output, count, piece)
    ensures count > 0 ==> Poised(now, fd, name, |output + piece|)
  {
    count, piece, now := NextPiece(k, fd, at, 1024, others, i, seat, name, n, |output|);
    RoundIsDone(k.disk, n, output, count, piece);
  }

  /** cat's loop: reads of 1024 bytes, each written out, until one returns 0, with any steps of other
      processes in between. It gets there exactly when every block that holds the file can be read, and
      otherwise has written what can be read of it. */
  method CopyOut(k: Kernel, fd: nat, at: Address, others: Others, ghost seat: Seat, ghost name: string, ghost n: nat)
    returns (ok: bool, output: seq<byte>)
    requires ValidDisk(k.disk) && k.Abs() == seat.s && Schedule(k.disk, others, seat.s.current)
    requires Poised(seat, fd, name, 0) && RegularFile(k.disk, name, n) && InRegion(at, 1024)
    modifies k
    ensures ok ==> n < |k.disk.inodes| && output == Content(k.disk, n)
    ensures ok <==> n < |k.disk.inodes| && DataBlocksOk(k.disk, n)
    ensures !ok ==> output == if n < |k.disk.inodes| then Legible(k.disk, n) else []
  {
    ghost var size := if n < |k.disk.inodes| then |Content(k.disk, n)| else 0;
    ghost var now := seat;
    var round := 0;
    output := [];
    while true
      invariant k.Abs() == now.s && now.s.current == seat.s.current && Poised(now, fd, name, |output|)
      invariant Written(k.disk, n, output) && |output| <= size
      decreases size - |output|
    {
      var count, piece;
      count, piece, now := CopyPiece(k, fd, at, output, others, round, now, name, n);
      if count == 0 {
        return true, output;
      }
      if count == -1 {
        return false, output;
      }
      output := output + piece;
      round := round + 1;
    }
  }

  /** cat writes exactly the file, whatever other processes do between its calls, and fails exactly when
      the file cannot be opened or a block that holds it cannot be read; then it has written the file up
      to that block. `at` is where its buffer lies. */
  method PrintFile(k: Kernel, name: string, at: Address, others: Others, ghost a: Ttys, ghost n: nat)
    returns (status: int, output: seq<byte>)
    requires k.Valid() && Represents(k.Abs(), a) && Schedule(k.disk, others, k.current)
    requires PlainName(name) && InRegion(at, 1024)
    requires Lookup(k.disk, name).Some? ==> RegularFile(k.disk, name, n)
    modifies k
    ensures status == 2 <==> OpenReturn(k.disk, old(k.Abs()), name) == -1
    ensures status == 2 ==> output == Bytes("file not found\n")
    ensures status == 0 ==> n < |k.disk.inodes| && output == Content(k.disk, n)
    ensures status != 2 ==> status == if n < |k.disk.inodes| && DataBlocksOk(k.disk, n) then 0 else 3
    ensures status == 3 ==>
              output == (if n < |k.disk.inodes| then Legible(k.disk, n) else []) + Bytes("file read failed\n")
  {
    var fd;
    ghost var seat;
    fd, seat := OpenRegular(k, name, Seat(k.Abs(), a), n);
    if fd == -1 {
      return 2, Bytes("file not found\n");
    }
    var ok;
    ok, output := CopyOut(k, fd, at, others, seat, name, n);
    if !ok {
      return 3, output + Bytes("file read failed\n");
    }
    status := 0;
  }
}

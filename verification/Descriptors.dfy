/** File descriptors over whole runs: what open hands out, and that the reads of one descriptor
    deliver the file from its start, piece by piece, whatever happens in between. */
module Descriptors {
  import opened Basics
  import opened FileSystem
  import opened SlotMask
  import opened Processes
  import opened Chains
  import opened Runs

  /** A descriptor handed out by open is the lowest free one from 2 on and starts at position 0,
      although open never writes the position. */
  lemma OpenedAtStart(d: Disk, s: State, a: Ttys, name: string)
    requires ValidDisk(d) && Represents(s, a)
    requires !StartsWith(name, "stdin") && !StartsWith(name, "stdou")
    ensures var fds := s.pcbs[s.current].fds;
            var fd := OpenReturn(d, s, name);
            var r := OpenNext(d, s, name);
            && (fd == -1 <==> Lookup(d, name) == None || forall i :: 2 <= i < 8 ==> fds[i].inUse)
            && (fd == -1 ==> r == s)
            && (fd != -1 ==>
                  && 2 <= fd < 8 && !fds[fd].inUse && (forall i :: 2 <= i < fd ==> fds[i].inUse)
                  && Wf(r) && r.pcbs[s.current].names[fd] == name
                  && r.pcbs[s.current].fds[fd].inUse && r.pcbs[s.current].fds[fd].position == 0
                  && r.pcbs[s.current].fds[fd].inode == Lookup(d, name).value.inode)
  {
    MeIsRunning(s, a);
    assert SlotOk(s, a, s.current);
    OpenKeepsWf(d, s, name);
  }

  /** Descriptor `fd` of process `p` reads the file `name` and stands at `position`. */
  predicate Reading(s: State, p: nat, fd: nat, name: string, position: int)
    requires Wf(s)
  {
    && p < SLOTS && 2 <= fd < 8
    && s.pcbs[p].names[fd] == name
    && var f := s.pcbs[p].fds[fd]; f.inUse && f.fops == FileFops && f.position == position
  }

  /** The event by which process `p` reads from `fd`. */
  predicate Reads(s: State, e: Event, p: nat, fd: nat) {
    s.current == p && e.Read? && e.call.fd == fd && e.call.buf != 0
  }

  predicate Closes(s: State, e: Event, p: nat, fd: nat) {
    s.current == p && e.Close? && e.fd == fd
  }

  lemma StepKeepsReading(d: Disk, s: State, a: Ttys, e: Event, p: nat, fd: nat, name: string, position: int)
    requires ValidDisk(d) && Represents(s, a) && Spares(d, s, e) && Reading(s, p, fd, name, position)
    requires a.places[p].At? && !Reads(s, e, p, fd) && !Closes(s, e, p, fd)
    ensures Wf(Next(d, s, e)) && Reading(Next(d, s, e), p, fd, name, position)
  {
    if p == s.current {
      SelfKeepsIdentity(d, s, a, e);
      MeIsRunning(s, a);
    } else {
      OthersUntouched(d, s, a, e, p);
    }
  }

  lemma SmallIsUnwrapped(x: nat)
    requires x < 0x8000_0000
    ensures U32(x) == x && I32(x) == x
  {
  }

  /** What a read of a file descriptor returns and delivers. */
  lemma ReplyOfFile(d: Disk, s: State, a: Ttys, c: ReadCall, name: string, n: nat, position: nat)
    requires ValidDisk(d) && Represents(s, a) && c.fd >= 0 && c.buf != 0 && Reading(s, s.current, c.fd, name, position)
    requires NamesFile(d, name, n) && position <= |Content(d, n)|
    ensures var reply := ReadReply(d, s, c);
            && reply == ReadSpec(d, n, position, U32(c.nbytes))
            && (reply.ret != -1 ==>
                  reply.bytes == Slice(Content(d, n), position, U32(c.nbytes)) && reply.ret == |reply.bytes|)
  {
    MeIsRunning(s, a);
    SmallIsUnwrapped(position);
  }

  lemma InSignedRange(now: int)
    requires -0x8000_0000 <= now < 0x8000_0000
    ensures I32(now) == now
  {
  }

  lemma ReadDonePcbs(d: Disk, s: State, c: ReadCall)
    requires ValidDisk(d) && Wf(s) && Readable(s, c)
    ensures var f := s.pcbs[Me(s)].fds[c.fd];
            ReadDone(d, s, c).pcbs == WithFd(s, c.fd, f.(position := I32(f.position + ReadReply(d, s, c).ret))).pcbs
  {
  }

  /** A read of a file descriptor moves its position by what it returns, as far as that is in range. */
  lemma PositionMoves(d: Disk, s: State, a: Ttys, c: ReadCall, name: string, position: int, now: int)
    requires ValidDisk(d) && Represents(s, a) && c.fd >= 0 && c.buf != 0 && Reading(s, s.current, c.fd, name, position)
    requires now == position + ReadReply(d, s, c).ret && -0x8000_0000 <= now < 0x8000_0000
    ensures Wf(ReadDone(d, s, c)) && Reading(ReadDone(d, s, c), s.current, c.fd, name, now)
  {
    MeIsRunning(s, a);
    ReadKeepsWf(d, s, c);
    InSignedRange(now);
    ReadDonePcbs(d, s, c);
  }

  /** A successful read delivers the next slice of the file and moves over exactly that slice. */
  lemma ReadTakesNextSlice(d: Disk, s: State, a: Ttys, c: ReadCall, name: string, n: nat, position: nat)
    requires ValidDisk(d) && Represents(s, a) && c.fd >= 0 && c.buf != 0 && Reading(s, s.current, c.fd, name, position)
    requires NamesFile(d, name, n) && position <= |Content(d, n)| && ReadReply(d, s, c).ret != -1
    ensures var reply := ReadReply(d, s, c);
            var end := Min(position + U32(c.nbytes), |Content(d, n)|);
            && reply.ret == |reply.bytes| == end - position
            && reply.bytes == Content(d, n)[position..end]
            && Wf(ReadDone(d, s, c)) && Reading(ReadDone(d, s, c), s.current, c.fd, name, end)
  {
    ReplyOfFile(d, s, a, c, name, n, position);
    PositionMoves(d, s, a, c, name, position, position + ReadReply(d, s, c).ret);
  }

  /** What one step delivers to `p` through `fd`. */
  function Piece(d: Disk, s: State, e: Event, p: nat, fd: nat): seq<byte>
    requires ValidDisk(d) && Wf(s)
  {
    if Reads(s, e, p, fd) then ReadReply(d, s, e.call).bytes else []
  }

  /** The step is a read of `fd` by `p` that fails. */
  predicate Fails(d: Disk, s: State, e: Event, p: nat, fd: nat)
    requires ValidDisk(d) && Wf(s)
  {
    Reads(s, e, p, fd) && ReadReply(d, s, e.call).ret == -1
  }

  lemma ReadStep(d: Disk, s: State, e: Event, p: nat, fd: nat)
    requires ValidDisk(d) && Wf(s) && Spares(d, s, e) && Reads(s, e, p, fd)
    ensures Next(d, s, e) == ReadDone(d, s, e.call)
  {
  }

  lemma ReadFollowsTheFile(d: Disk, s: State, a: Ttys, e: Event, p: nat, fd: nat, name: string, n: nat, position: nat)
    returns (now: nat)
    requires ValidDisk(d) && Represents(s, a) && Spares(d, s, e) && Reading(s, p, fd, name, position)
    requires NamesFile(d, name, n) && position <= |Content(d, n)| && Reads(s, e, p, fd) && !Fails(d, s, e, p, fd)
    ensures Wf(Next(d, s, e)) && Reading(Next(d, s, e), p, fd, name, now)
    ensures position <= now <= |Content(d, n)| && Piece(d, s, e, p, fd) == Content(d, n)[position..now]
  {
    ReadStep(d, s, e, p, fd);
    ReadTakesNextSlice(d, s, a, e.call, name, n, position);
    now := Min(position + U32(e.call.nbytes), |Content(d, n)|);
  }

  lemma StepFollowsTheFile(d: Disk, s: State, a: Ttys, e: Event, p: nat, fd: nat, name: string, n: nat, position: nat)
    returns (now: nat)
    requires ValidDisk(d) && Represents(s, a) && Spares(d, s, e) && Reading(s, p, fd, name, position) && a.places[p].At?
    requires NamesFile(d, name, n) && position <= |Content(d, n)| && !Closes(s, e, p, fd) && !Fails(d, s, e, p, fd)
    ensures Wf(Next(d, s, e)) && Reading(Next(d, s, e), p, fd, name, now)
    ensures position <= now <= |Content(d, n)| && Piece(d, s, e, p, fd) == Content(d, n)[position..now]
  {
    if Reads(s, e, p, fd) {
      now := ReadFollowsTheFile(d, s, a, e, p, fd, name, n, position);
    } else {
      StepKeepsReading(d, s, a, e, p, fd, name, position);
      now := position;
    }
  }

  /** What `p` has received through `fd` along the run. */
  function Received(d: Disk, s: State, es: seq<Event>, p: nat, fd: nat): seq<byte>
    requires ValidDisk(d) && Wf(s)
    decreases |es|
  {
    if es == [] then []
    else
      NextKeepsWf(d, s, es[0]);
      Piece(d, s, es[0], p, fd) + Received(d, Next(d, s, es[0]), es[1..], p, fd)
  }

  /** Along the run `p` stays in the table, does not close `fd`, and no read of `fd` by `p` fails. */
  predicate Keeps(d: Disk, s: State, a: Ttys, es: seq<Event>, p: nat, fd: nat)
    requires ValidDisk(d) && Wf(s) && Shape(a) && p < SLOTS
    decreases |es|
  {
    es != [] ==>
      && a.places[p].At? && !Closes(s, es[0], p, fd) && !Fails(d, s, es[0], p, fd)
      && (NextKeepsWf(d, s, es[0]); StepKeepsShape(d, a, es[0]);
          Keeps(d, Next(d, s, es[0]), Step(d, a, es[0]), es[1..], p, fd))
  }

  lemma SlicesJoin(c: seq<byte>, i: nat, j: nat, k: nat)
    requires i <= j <= k <= |c|
    ensures c[i..j] + c[j..k] == c[i..k]
  {
  }

  /** The pieces a process reads from a descriptor, of any sizes and with any steps of any process
      in between, concatenate to the part of the file the position has moved over. */
  lemma {:induction false} ReadsFollowTheFile(d: Disk, s: State, a: Ttys, es: seq<Event>, p: nat, fd: nat,
                                             name: string, n: nat, position: nat)
    returns (end: nat)
    requires ValidDisk(d) && Represents(s, a) && Orderly(d, s, es) && Reading(s, p, fd, name, position)
    requires NamesFile(d, name, n) && position <= |Content(d, n)| && Keeps(d, s, a, es, p, fd)
    ensures position <= end <= |Content(d, n)| && Reading(Run(d, s, es), p, fd, name, end)
    ensures Received(d, s, es, p, fd) == Content(d, n)[position..end]
    decreases |es|
  {
    if es == [] {
      end := position;
    } else {
      var now := StepFollowsTheFile(d, s, a, es[0], p, fd, name, n, position);
      assert Represents(Next(d, s, es[0]), Step(d, a, es[0])) by { Simulates(d, s, a, es[0]); }
      end := ReadsFollowTheFile(d, Next(d, s, es[0]), Step(d, a, es[0]), es[1..], p, fd, name, n, now);
      SlicesJoin(Content(d, n), position, now, end);
    }
  }

  /** As long as no read fails, a read of at least one byte returns 0 exactly when everything has been
      received. */
  lemma ZeroMeansWholeFile(d: Disk, s: State, a: Ttys, es: seq<Event>, c: ReadCall, name: string, n: nat)
    requires ValidDisk(d) && Represents(s, a) && Orderly(d, s, es) && c.fd >= 0
    requires var p := Run(d, s, es).current; p < SLOTS && Reading(s, p, c.fd, name, 0) && Keeps(d, s, a, es, p, c.fd)
    requires NamesFile(d, name, n) && c.buf != 0 && U32(c.nbytes) > 0
    ensures var p := Run(d, s, es).current;
            && Received(d, s, es, p, c.fd) <= Content(d, n)
            && (ReadReply(d, Run(d, s, es), c).ret == 0 <==> Received(d, s, es, p, c.fd) == Content(d, n))
  {
    var end := ReadsFollowTheFile(d, s, a, es, Run(d, s, es).current, c.fd, name, n, 0);
    EveryRunRepresents(d, s, a, es);
    ReplyOfFile(d, Run(d, s, es), Steps(d, a, es), c, name, n, end);
    ReadFailsIff(d, n, end, U32(c.nbytes));
  }

  // ---- With reads that fail ----

  /** What a read returns and leaves wherever the position can be: anywhere in the file, at its end, or,
      after failures, one before its start. */
  lemma ReplyAnywhere(d: Disk, s: State, a: Ttys, c: ReadCall, name: string, n: nat, position: int)
    requires ValidDisk(d) && Represents(s, a) && c.fd >= 0 && c.buf != 0 && Reading(s, s.current, c.fd, name, position)
    requires NamesFile(d, name, n) && -1 <= position <= |Content(d, n)|
    ensures var reply := ReadReply(d, s, c);
            && reply == (if position == -1 then ReadOutcome(0, []) else ReadSpec(d, n, position, U32(c.nbytes)))
            && -1 <= position + reply.ret <= |Content(d, n)|
            && (U32(c.nbytes) > 0 ==> (reply.ret == 0 <==> position == -1 || position == |Content(d, n)|))
  {
    MeIsRunning(s, a);
    if position == -1 {
      assert U32(-1) >= |Content(d, n)|;
    } else {
      SmallIsUnwrapped(position);
      ReadFailsIff(d, n, position, U32(c.nbytes));
    }
  }

  /** Every read moves the position by what it returns, also when it fails. */
  lemma ReadMovesByReturn(d: Disk, s: State, a: Ttys, c: ReadCall, name: string, n: nat, position: int)
    requires ValidDisk(d) && Represents(s, a) && c.fd >= 0 && c.buf != 0 && Reading(s, s.current, c.fd, name, position)
    requires NamesFile(d, name, n) && -1 <= position <= |Content(d, n)|
    ensures Wf(ReadDone(d, s, c))
    ensures Reading(ReadDone(d, s, c), s.current, c.fd, name, position + ReadReply(d, s, c).ret)
  {
    ReplyAnywhere(d, s, a, c, name, n, position);
    PositionMoves(d, s, a, c, name, position, position + ReadReply(d, s, c).ret);
  }

  /** What a step returns to a read of `fd` by `p`. */
  function Return(d: Disk, s: State, e: Event, p: nat, fd: nat): int
    requires ValidDisk(d) && Wf(s)
  {
    if Reads(s, e, p, fd) then ReadReply(d, s, e.call).ret else 0
  }

  /** The sum of what the reads of `fd` by `p` return along the run. */
  function Returned(d: Disk, s: State, es: seq<Event>, p: nat, fd: nat): int
    requires ValidDisk(d) && Wf(s)
    decreases |es|
  {
    if es == [] then 0
    else
      NextKeepsWf(d, s, es[0]);
      Return(d, s, es[0], p, fd) + Returned(d, Next(d, s, es[0]), es[1..], p, fd)
  }

  /** Along the run `p` stays in the table and does not close `fd`. */
  predicate Retains(d: Disk, s: State, a: Ttys, es: seq<Event>, p: nat, fd: nat)
    requires ValidDisk(d) && Wf(s) && Shape(a) && p < SLOTS
    decreases |es|
  {
    es != [] ==>
      && a.places[p].At? && !Closes(s, es[0], p, fd)
      && (NextKeepsWf(d, s, es[0]); StepKeepsShape(d, a, es[0]);
          Retains(d, Next(d, s, es[0]), Step(d, a, es[0]), es[1..], p, fd))
  }

  lemma ReadStepMoves(d: Disk, s: State, a: Ttys, e: Event, p: nat, fd: nat, name: string, n: nat, position: int)
    requires ValidDisk(d) && Represents(s, a) && Spares(d, s, e) && Reading(s, p, fd, name, position)
    requires Reads(s, e, p, fd) && NamesFile(d, name, n) && -1 <= position <= |Content(d, n)|
    ensures Wf(Next(d, s, e)) && Reading(Next(d, s, e), p, fd, name, position + Return(d, s, e, p, fd))
    ensures -1 <= position + Return(d, s, e, p, fd) <= |Content(d, n)|
  {
    ReadStep(d, s, e, p, fd);
    ReplyAnywhere(d, s, a, e.call, name, n, position);
    ReadMovesByReturn(d, s, a, e.call, name, n, position);
  }

  lemma StepMovesByReturn(d: Disk, s: State, a: Ttys, e: Event, p: nat, fd: nat, name: string, n: nat, position: int)
    requires ValidDisk(d) && Represents(s, a) && Spares(d, s, e) && Reading(s, p, fd, name, position)
    requires a.places[p].At? && !Closes(s, e, p, fd) && NamesFile(d, name, n) && -1 <= position <= |Content(d, n)|
    ensures Wf(Next(d, s, e)) && Reading(Next(d, s, e), p, fd, name, position + Return(d, s, e, p, fd))
    ensures -1 <= position + Return(d, s, e, p, fd) <= |Content(d, n)|
  {
    if Reads(s, e, p, fd) {
      ReadStepMoves(d, s, a, e, p, fd, name, n, position);
    } else {
      StepKeepsReading(d, s, a, e, p, fd, name, position);
    }
  }

  /** Over every run, with any reads failing and anything in between, the position is where it was plus
      the sum of the returns, and never leaves the range from -1 to the size. */
  lemma {:induction false} PositionIsSumOfReturns(d: Disk, s: State, a: Ttys, es: seq<Event>, p: nat, fd: nat,
                                                  name: string, n: nat, position: int)
    requires ValidDisk(d) && Represents(s, a) && Orderly(d, s, es) && Reading(s, p, fd, name, position)
    requires NamesFile(d, name, n) && -1 <= position <= |Content(d, n)| && Retains(d, s, a, es, p, fd)
    ensures Reading(Run(d, s, es), p, fd, name, position + Returned(d, s, es, p, fd))
    ensures -1 <= position + Returned(d, s, es, p, fd) <= |Content(d, n)|
    decreases |es|
  {
    if es != [] {
      var next, ret := Next(d, s, es[0]), Return(d, s, es[0], p, fd);
      StepMovesByReturn(d, s, a, es[0], p, fd, name, n, position);
      assert Represents(next, Step(d, a, es[0])) by { Simulates(d, s, a, es[0]); }
      PositionIsSumOfReturns(d, next, Step(d, a, es[0]), es[1..], p, fd, name, n, position + ret);
    }
  }

  /** What 0 means after any run: a read of at least one byte returns 0 exactly when the returns so far
      add up to the size, or to -1. */
  lemma ZeroMeans(d: Disk, s: State, a: Ttys, es: seq<Event>, c: ReadCall, name: string, n: nat)
    requires ValidDisk(d) && Represents(s, a) && Orderly(d, s, es) && c.fd >= 0
    requires var p := Run(d, s, es).current;
             p < SLOTS && Reading(s, p, c.fd, name, 0) && Retains(d, s, a, es, p, c.fd)
    requires NamesFile(d, name, n) && c.buf != 0 && U32(c.nbytes) > 0
    ensures var total := Returned(d, s, es, Run(d, s, es).current, c.fd);
            ReadReply(d, Run(d, s, es), c).ret == 0 <==> total == |Content(d, n)| || total == -1
  {
    var r := Run(d, s, es);
    PositionIsSumOfReturns(d, s, a, es, r.current, c.fd, name, n, 0);
    EveryRunRepresents(d, s, a, es);
    ReplyAnywhere(d, r, Steps(d, a, es), c, name, n, Returned(d, s, es, r.current, c.fd));
  }

  /** One before the start there is no way back: whatever happens, nothing is received any more. */
  lemma {:induction false} StuckBeforeStart(d: Disk, s: State, a: Ttys, es: seq<Event>, p: nat, fd: nat,
                                           name: string, n: nat)
    requires ValidDisk(d) && Represents(s, a) && Orderly(d, s, es) && Reading(s, p, fd, name, -1)
    requires NamesFile(d, name, n) && Retains(d, s, a, es, p, fd)
    ensures Received(d, s, es, p, fd) == [] && Reading(Run(d, s, es), p, fd, name, -1)
    decreases |es|
  {
    if es != [] {
      StepMovesByReturn(d, s, a, es[0], p, fd, name, n, -1);
      if Reads(s, es[0], p, fd) {
        ReplyAnywhere(d, s, a, es[0].call, name, n, -1);
      }
      assert Represents(Next(d, s, es[0]), Step(d, a, es[0])) by { Simulates(d, s, a, es[0]); }
      StuckBeforeStart(d, Next(d, s, es[0]), Step(d, a, es[0]), es[1..], p, fd, name, n);
    }
  }

  /** A failed read moves the position back by one: the next read of the descriptor starts one byte
      before the failed one did, or, when that was at the start, returns 0 at once, whatever the file
      holds. */
  lemma AfterFailedRead(d: Disk, s: State, a: Ttys, c: ReadCall, next: ReadCall, name: string, n: nat, position: nat)
    requires ValidDisk(d) && Represents(s, a) && c.fd >= 0 && c.buf != 0 && Reading(s, s.current, c.fd, name, position)
    requires NamesFile(d, name, n) && position <= |Content(d, n)|
    requires ReadReply(d, s, c).ret == -1 && next.fd == c.fd && next.buf != 0
    ensures var r := ReadDone(d, s, c);
            && Wf(r)
            && ReadReply(d, r, next) == (if position == 0 then ReadOutcome(0, [])
                                         else ReadSpec(d, n, position - 1, U32(next.nbytes)))
            && (U32(next.nbytes) > 0 ==> (ReadReply(d, r, next).ret == 0 <==> position == 0))
  {
    ReplyAnywhere(d, s, a, c, name, n, position);
    ReadMovesByReturn(d, s, a, c, name, n, position);
    ReadSimulates(d, s, a, c);
    ReplyAnywhere(d, ReadDone(d, s, c), a, next, name, n, position - 1);
  }

  /** So 0 does not mean the whole file after a failure: with a bad first block the first read fails,
      and the second returns 0 although the file is not empty and nothing was received. */
  lemma ZeroAfterFailure(d: Disk, s: State, a: Ttys, c: ReadCall, name: string, n: nat)
    requires ValidDisk(d) && Represents(s, a) && c.fd >= 0 && c.buf != 0 && Reading(s, s.current, c.fd, name, 0)
    requires NamesFile(d, name, n) && |Content(d, n)| > 0 && !BlockOk(d, n, 0)
    ensures ReadReply(d, s, c) == ReadOutcome(-1, [])
    ensures Wf(ReadDone(d, s, c)) && ReadReply(d, ReadDone(d, s, c), c) == ReadOutcome(0, [])
  {
    ReplyOfFile(d, s, a, c, name, n, 0);
    StopsAtBadBlock(d, n, 0, U32(c.nbytes), 0);
    AfterFailedRead(d, s, a, c, c, name, n, 0);
  }
}

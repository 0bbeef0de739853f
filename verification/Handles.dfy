/** What open and close do to a process's descriptors, and what a read of each kind of descriptor
    gives. */
module Handles {
  import opened Basics
  import opened Division
  import opened FileSystem
  import opened Processes
  import opened Chains
  import opened Runs
  import opened Descriptors

  /** The state in which the current process has the descriptors `fds`, and all else is as in `s`. */
  function WithDescriptors(s: State, fds: seq<Fd>): State
    requires Wf(s)
  {
    s.(pcbs := s.pcbs[s.current := s.pcbs[s.current].(fds := fds)])
  }

  // ---- Close ----

  /** close accepts exactly the descriptors from 2 to 7 that are in use. Such a one is free afterwards, at
      position 0, and nothing else changes; otherwise nothing changes at all. */
  lemma CloseFrees(s: State, a: Ttys, fd: int)
    requires Represents(s, a)
    ensures var fds := s.pcbs[s.current].fds;
            var r := CloseNext(s, fd);
            && |fds| == 8 && (CloseReturn(s, fd) == if 2 <= fd <= 7 && fds[fd].inUse then 0 else -1)
            && (CloseReturn(s, fd) == -1 ==> r == s)
            && (CloseReturn(s, fd) == 0 ==>
                  && Represents(r, a)
                  && var now := r.pcbs[s.current].fds;
                     && r == WithDescriptors(s, now) && |now| == 8 && !now[fd].inUse && now[fd].position == 0
                     && forall i :: 0 <= i < 8 && i != fd ==> now[i] == fds[i])
  {
    MeIsRunning(s, a);
    CloseSimulates(s, a, fd);
  }

  /** A descriptor that is closed can be neither read nor closed. */
  lemma ClosedIsUseless(d: Disk, s: State, a: Ttys, fd: int, c: ReadCall)
    requires ValidDisk(d) && Represents(s, a) && CloseReturn(s, fd) == 0 && c.fd == fd
    ensures var r := CloseNext(s, fd);
            Wf(r) && ReadReply(d, r, c) == ReadOutcome(-1, []) && ReadDone(d, r, c) == r && CloseReturn(r, fd) == -1
  {
    CloseFrees(s, a, fd);
    MeIsRunning(s, a);
    MeIsRunning(CloseNext(s, fd), a);
  }

  /** The next open of a known name finds the closed descriptor, or a lower one that was free already, and
      starts at the beginning. */
  lemma ReopenAfterClose(d: Disk, s: State, a: Ttys, fd: int, name: string)
    requires ValidDisk(d) && Represents(s, a) && CloseReturn(s, fd) == 0
    requires !StartsWith(name, "stdin") && !StartsWith(name, "stdou") && Lookup(d, name).Some?
    ensures var r := CloseNext(s, fd);
            && Represents(r, a) && var again := OpenReturn(d, r, name);
            && 2 <= again <= fd <= 7
            && (again == fd <==> forall i :: 2 <= i < fd ==> s.pcbs[s.current].fds[i].inUse)
            && Wf(OpenNext(d, r, name)) && OpenNext(d, r, name).pcbs[s.current].fds[again].position == 0
  {
    CloseFrees(s, a, fd);
    OpenedAtStart(d, CloseNext(s, fd), a, name);
  }

  /** Opening and closing again and again uses no descriptor up: the same one is returned each time. */
  lemma OpenCloseOpen(d: Disk, s: State, a: Ttys, name: string, other: string)
    requires ValidDisk(d) && Represents(s, a) && OpenReturn(d, s, name) != -1 && Lookup(d, other).Some?
    requires !StartsWith(name, "stdin") && !StartsWith(name, "stdou")
    requires !StartsWith(other, "stdin") && !StartsWith(other, "stdou")
    ensures var fd, r := OpenReturn(d, s, name), OpenNext(d, s, name);
            && Represents(r, a) && CloseReturn(r, fd) == 0
            && Represents(CloseNext(r, fd), a) && OpenReturn(d, CloseNext(r, fd), other) == fd
            && CloseNext(r, fd).pcbs[s.current].fds[..fd] == s.pcbs[s.current].fds[..fd]
  {
    var fd, r := OpenReturn(d, s, name), OpenNext(d, s, name);
    OpenSimulates(d, s, a, name);
    OpenTouchesOne(d, s, a, name);
    MeIsRunning(s, a);
    MeIsRunning(r, a);
    CloseFrees(r, a, fd);
    ReopenAfterClose(d, r, a, fd, other);
  }

  // ---- Open ----

  /** A plain open that succeeds changes one descriptor and its name, and nothing else. The kind of the
      descriptor is that of the entry: 0 the real-time clock, 1 a directory, 2 a file. */
  lemma OpenTouchesOne(d: Disk, s: State, a: Ttys, name: string)
    requires ValidDisk(d) && Represents(s, a) && OpenReturn(d, s, name) != -1
    requires !StartsWith(name, "stdin") && !StartsWith(name, "stdou")
    ensures var fd, r, pcb := OpenReturn(d, s, name), OpenNext(d, s, name), s.pcbs[s.current];
            && 2 <= fd < 8 && Wf(r) && var f := r.pcbs[s.current].fds[fd];
            && r == s.(pcbs := s.pcbs[s.current := pcb.(fds := pcb.fds[fd := f], names := pcb.names[fd := name])])
            && f.inUse && Lookup(d, name).Some? && f.inode == Lookup(d, name).value.inode
            && (Lookup(d, name).value.filetype == 0 ==> f.fops == RtcFops)
            && (Lookup(d, name).value.filetype == 1 ==> f.fops == DirFops)
            && (Lookup(d, name).value.filetype == 2 ==> f.fops == FileFops)
            && (Lookup(d, name).value.filetype > 2 ==> f.fops == pcb.fds[fd].fops)
  {
    MeIsRunning(s, a);
    OpenKeepsWf(d, s, name);
  }

  /** A name that starts with "stdin" reopens descriptor 0, one that starts with "stdou" descriptor 1; both
      return 0, and nothing else changes. */
  lemma OpenStandardStream(d: Disk, s: State, a: Ttys, name: string)
    requires ValidDisk(d) && Represents(s, a) && |name| >= 5 && (name[..5] == "stdin" || name[..5] == "stdou")
    ensures var fds := s.pcbs[s.current].fds;
            && |fds| == 8 && OpenReturn(d, s, name) == 0
            && (name[..5] == "stdin" ==>
                  OpenNext(d, s, name) == WithDescriptors(s, fds[0 := fds[0].(fops := StdinFops)]))
            && (name[..5] == "stdou" ==>
                  OpenNext(d, s, name) == WithDescriptors(s, fds[1 := fds[1].(fops := StdoutFops)]))
  {
    MeIsRunning(s, a);
    assert SlotOk(s, a, s.current);
    assert name[..5] == "stdin" ==> !StartsWith(name, "stdou");
  }

  // ---- Read ----

  /** A read fails at once on a descriptor out of range or not in use, and on a NULL buffer. On the
      terminal it returns what is asked for, with what is typed; on the clock and on standard output it
      returns 0 with nothing. */
  lemma ReplyByKind(d: Disk, s: State, a: Ttys, c: ReadCall)
    requires ValidDisk(d) && Represents(s, a)
    ensures var fds, reply := s.pcbs[s.current].fds, ReadReply(d, s, c);
            && |fds| == 8
            && (c.fd < 0 || c.fd > 7 || c.buf == 0 || !fds[c.fd].inUse ==> reply == ReadOutcome(-1, []))
            && (0 <= c.fd <= 7 && c.buf != 0 && fds[c.fd].inUse ==>
                  && (fds[c.fd].fops == StdinFops ==>
                        && reply.ret == (if c.nbytes < 0 then 0 else c.nbytes) && reply.bytes <= c.typed
                        && |reply.bytes| == Min(|c.typed|, reply.ret))
                  && (fds[c.fd].fops == RtcFops || fds[c.fd].fops == StdoutFops ==> reply == ReadOutcome(0, [])))
  {
    MeIsRunning(s, a);
  }

  /** Whatever its kind, a read that is not refused moves the descriptor's position by what it returns, in
      32 bits, and changes nothing else but the memory it stores into and the directory counter. */
  lemma ReadTouchesOne(d: Disk, s: State, a: Ttys, c: ReadCall)
    requires ValidDisk(d) && Represents(s, a)
    ensures var fds, r := s.pcbs[s.current].fds, ReadDone(d, s, c);
            && |fds| == 8
            && (0 <= c.fd <= 7 && c.buf != 0 && fds[c.fd].inUse ==>
                  && Wf(r) && var f := r.pcbs[s.current].fds[c.fd];
                  && f == fds[c.fd].(position := f.position) && -0x8000_0000 <= f.position < 0x8000_0000
                  && (f.position - fds[c.fd].position - ReadReply(d, s, c).ret) % 0x1_0000_0000 == 0
                  && r == WithDescriptors(s, fds[c.fd := f]).(mem := r.mem, dirReads := r.dirReads))
            && (!(0 <= c.fd <= 7 && c.buf != 0 && fds[c.fd].inUse) ==> r == s)
  {
    MeIsRunning(s, a);
    ReadKeepsWf(d, s, c);
    if Readable(s, c) {
      WrapsByMultiple(s.pcbs[s.current].fds[c.fd].position + ReadReply(d, s, c).ret);
    }
  }

  lemma WrapsByMultiple(x: int)
    ensures -0x8000_0000 <= I32(x) < 0x8000_0000 && (I32(x) - x) % 0x1_0000_0000 == 0
  {
  }

  // ---- The directory ----

  /** The event is a read of a directory. */
  predicate ListsNext(s: State, e: Event)
    requires Wf(s)
  {
    e.Read? && Readable(s, e.call) && s.pcbs[Me(s)].fds[e.call.fd].fops == DirFops
  }

  /** Line `i` of an endless listing: the names in their order, then an empty line, and again. */
  function Listing(d: Disk, i: nat): seq<byte>
    requires ValidDisk(d)
  {
    var k := i % (d.numDentries + 1);
    if k < d.numDentries then Bytes(d.dentries[k].name) + [0] else []
  }

  /** What the directory reads of a run, by whichever processes, are given, in their order. */
  function Listed(d: Disk, s: State, es: seq<Event>): seq<seq<byte>>
    requires ValidDisk(d) && Wf(s)
    decreases |es|
  {
    if es == [] then []
    else
      NextKeepsWf(d, s, es[0]);
      (if ListsNext(s, es[0]) then [ReadReply(d, s, es[0].call).bytes] else []) + Listed(d, Next(d, s, es[0]), es[1..])
  }

  /** One step: only a directory read moves the counter, by one line of the listing, which it is given
      with its length. */
  lemma ListingStep(d: Disk, s: State, a: Ttys, e: Event, i: nat)
    requires ValidDisk(d) && Represents(s, a) && Spares(d, s, e) && s.dirReads == i % (d.numDentries + 1)
    ensures Next(d, s, e).dirReads == (if ListsNext(s, e) then i + 1 else i) % (d.numDentries + 1)
    ensures ListsNext(s, e) ==>
              var reply := ReadReply(d, s, e.call);
              reply.bytes == Listing(d, i) && reply.ret == if Listing(d, i) == [] then 0 else |Listing(d, i)| - 1
  {
    NextRemainder(i, d.numDentries + 1);
  }

  predicate Continues(d: Disk, i: nat, lines: seq<seq<byte>>)
    requires ValidDisk(d)
  {
    forall k :: 0 <= k < |lines| ==> lines[k] == Listing(d, i + k)
  }

  lemma OneMoreLine(d: Disk, i: nat, line: seq<byte>, rest: seq<seq<byte>>)
    requires ValidDisk(d) && line == Listing(d, i) && Continues(d, i + 1, rest)
    ensures Continues(d, i, [line] + rest) && i + 1 + |rest| == i + |[line] + rest|
  {
  }

  /** The directory reads of the run are given the listing from line `i` on, and leave the counter there. */
  predicate ListsFrom(d: Disk, s: State, es: seq<Event>, i: nat)
    requires ValidDisk(d) && Wf(s)
  {
    Continues(d, i, Listed(d, s, es)) && Run(d, s, es).dirReads == (i + |Listed(d, s, es)|) % (d.numDentries + 1)
  }

  lemma ListsAfterOther(d: Disk, s: State, es: seq<Event>, i: nat)
    requires ValidDisk(d) && Wf(s) && es != [] && !ListsNext(s, es[0])
    requires (NextKeepsWf(d, s, es[0]); ListsFrom(d, Next(d, s, es[0]), es[1..], i))
    ensures ListsFrom(d, s, es, i)
  {
    NextKeepsWf(d, s, es[0]);
    var rest := Listed(d, Next(d, s, es[0]), es[1..]);
    assert Listed(d, s, es) == [] + rest == rest;
  }

  lemma ListsAfterLine(d: Disk, s: State, es: seq<Event>, i: nat)
    requires ValidDisk(d) && Wf(s) && es != [] && ListsNext(s, es[0])
    requires ReadReply(d, s, es[0].call).bytes == Listing(d, i)
    requires (NextKeepsWf(d, s, es[0]); ListsFrom(d, Next(d, s, es[0]), es[1..], i + 1))
    ensures ListsFrom(d, s, es, i)
  {
    NextKeepsWf(d, s, es[0]);
    var line, rest := ReadReply(d, s, es[0].call).bytes, Listed(d, Next(d, s, es[0]), es[1..]);
    assert Listed(d, s, es) == [line] + rest;
    OneMoreLine(d, i, line, rest);
  }

  /** Over every run the directory reads, by whichever processes and with anything in between, are given
      the listing line by line, from where the counter stands. */
  lemma {:induction false} ReadsListDirectory(d: Disk, s: State, a: Ttys, es: seq<Event>, i: nat)
    requires ValidDisk(d) && Represents(s, a) && Orderly(d, s, es) && s.dirReads == i % (d.numDentries + 1)
    ensures ListsFrom(d, s, es, i)
    decreases |es|
  {
    if es != [] {
      var next, lists := Next(d, s, es[0]), ListsNext(s, es[0]);
      ListingStep(d, s, a, es[0], i);
      Simulates(d, s, a, es[0]);
      if lists {
        ReadsListDirectory(d, next, Step(d, a, es[0]), es[1..], i + 1);
        ListsAfterLine(d, s, es, i);
      } else {
        ReadsListDirectory(d, next, Step(d, a, es[0]), es[1..], i);
        ListsAfterOther(d, s, es, i);
      }
    }
  }
}

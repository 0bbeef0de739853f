/** What a new process starts with: which commands are run, the arguments, descriptors and program a
    process finds, and what bootup gives the three shells. */
module Launch {
  import opened Basics
  import opened FileSystem
  import opened SlotMask
  import opened Processes
  import opened Chains
  import opened Runs
  import opened Isolation

  // ---- The command ----

  /** The command is the name alone, or the name, a space and more. */
  predicate Invokes(c: string, name: string) {
    && ' ' !in name && |name| <= |c| && c[..|name|] == name
    && (|c| == |name| || c[|name|] == ' ')
  }

  lemma {:induction false} SpaceIsAt(c: string, i: nat)
    requires i <= |c| && (i < |c| ==> c[i] == ' ') && forall k :: 0 <= k < i ==> c[k] != ' '
    ensures FirstSpace(c) == i
  {
  }

  lemma CommandParts(c: string, name: string)
    requires Invokes(c, name)
    ensures FirstSpace(c) == |name| && ProgramName(c) == name
    ensures Arguments(c) == if |c| == |name| then "" else c[|name| + 1..]
  {
    forall k | 0 <= k < |name| ensures c[k] != ' ' {
      assert c[k] == name[k];
    }
    SpaceIsAt(c, |name|);
  }

  /** Byte `i` of the first four that execute sees: the file's, or what its buffer held if the file is
      shorter. */
  function StartByte(d: Disk, n: nat, junk: FourBytes, i: nat): byte
    requires ValidDisk(d) && n < |d.inodes| && i < 4
  {
    if i < |Content(d, n)| then Content(d, n)[i] else junk[i]
  }

  /** The four bytes are 0x7f and "ELF". */
  predicate StartsLikeElf(d: Disk, n: nat, junk: FourBytes)
    requires ValidDisk(d) && n < |d.inodes|
  {
    && StartByte(d, n, junk, 0) == 0x7f && StartByte(d, n, junk, 1) == 0x45
    && StartByte(d, n, junk, 2) == 0x4c && StartByte(d, n, junk, 3) == 0x46
  }

  lemma FirstBytes(d: Disk, name: string, n: nat, junk: FourBytes)
    requires ValidDisk(d) && NamesFile(d, name, n) && (|Content(d, n)| > 0 ==> BlockOk(d, n, 0))
    ensures |FsRead(d, name, 0, 4).bytes| <= 4 && FsRead(d, name, 0, 4).ret != -1
    ensures var seen := Filled(junk, FsRead(d, name, 0, 4));
            forall i :: 0 <= i < 4 ==> seen[i] == StartByte(d, n, junk, i)
  {
    ReadFailsIff(d, n, 0, 4);
    ReadAtMost(d, name, 0, 4);
  }

  lemma IsMagic(b: FourBytes)
    ensures b == MAGIC <==> b[0] == 0x7f && b[1] == 0x45 && b[2] == 0x4c && b[3] == 0x46
  {
    assert b == [b[0], b[1], b[2], b[3]];
  }

  lemma ElfSeen(d: Disk, name: string, n: nat, junk: FourBytes)
    requires ValidDisk(d) && NamesFile(d, name, n) && (|Content(d, n)| > 0 ==> BlockOk(d, n, 0))
    ensures FsRead(d, name, 0, 4).ret != -1 && |FsRead(d, name, 0, 4).bytes| <= 4
    ensures Filled(junk, FsRead(d, name, 0, 4)) == MAGIC <==> StartsLikeElf(d, n, junk)
  {
    FirstBytes(d, name, n, junk);
    IsMagic(Filled(junk, FsRead(d, name, 0, 4)));
  }

  /** A command passes execute's checks exactly when its name has at most 32 characters and is that of a
      file whose first block can be read and which starts like an ELF file. */
  lemma LoadableIff(d: Disk, c: Command, name: string, n: nat, junk: FourBytes)
    requires ValidDisk(d) && Invokes(c, name)
    ensures NamesFile(d, name, n) ==>
              (Loadable(d, Some(c), junk) <==>
                 && |name| <= 32 && (|Content(d, n)| > 0 ==> BlockOk(d, n, 0)) && StartsLikeElf(d, n, junk))
    ensures Loadable(d, Some(c), junk) ==> exists k: nat :: FirstNamed(d, name, k) && d.dentries[k].inode < |d.inodes|
    ensures !Loadable(d, None, junk)
  {
    CommandParts(c, name);
    LookupIsFirst(d, name);
    if NamesFile(d, name, n) {
      if |Content(d, n)| > 0 && !BlockOk(d, n, 0) {
        StopsAtBadBlock(d, n, 0, 4, 0);
      } else {
        ElfSeen(d, name, n, junk);
      }
    }
  }

  // ---- Arguments ----

  /** The new process's arguments are what follows the first space of the command. */
  lemma ArgumentsStored(d: Disk, s: State, a: Ttys, e: Event, name: string, rest: string)
    requires ValidDisk(d) && Represents(s, a) && e.Execute? && Executes(d, s, e)
    requires ' ' !in name && e.command == Some(name + " " + rest)
    ensures var r := ExecuteNext(d, s, e); Wf(r) && r.pcbs[r.current].args == rest
  {
    var c := e.command.value;
    assert c[..|name|] == name && c[|name| + 1..] == rest;
    CommandParts(c, name);
    ExecuteKeepsWf(d, s, e);
    ExecuteEnters(d, s, a, e);
  }

  /** `p` has a place in the table all along the run. */
  predicate Stays(d: Disk, a: Ttys, es: seq<Event>, p: nat)
    requires ValidDisk(d) && Shape(a) && p < SLOTS
    decreases |es|
  {
    a.places[p].At? && (es != [] ==> (StepKeepsShape(d, a, es[0]); Stays(d, Step(d, a, es[0]), es[1..], p)))
  }

  lemma StepKeepsArguments(d: Disk, s: State, a: Ttys, e: Event, p: nat)
    requires ValidDisk(d) && Represents(s, a) && Spares(d, s, e) && p < SLOTS && a.places[p].At?
    ensures Wf(Next(d, s, e)) && Next(d, s, e).pcbs[p].args == s.pcbs[p].args
  {
    MeIsRunning(s, a);
    if p == s.current {
      SelfKeepsIdentity(d, s, a, e);
    } else {
      OthersUntouched(d, s, a, e, p);
    }
  }

  /** A process keeps its arguments as long as it stays, whatever it and the others do. */
  lemma {:induction false} ArgumentsStay(d: Disk, s: State, a: Ttys, es: seq<Event>, p: nat)
    requires ValidDisk(d) && Represents(s, a) && Orderly(d, s, es) && p < SLOTS && Stays(d, a, es, p)
    ensures Run(d, s, es).pcbs[p].args == s.pcbs[p].args
    decreases |es|
  {
    if es != [] {
      StepKeepsArguments(d, s, a, es[0], p);
      Simulates(d, s, a, es[0]);
      ArgumentsStay(d, Next(d, s, es[0]), Step(d, a, es[0]), es[1..], p);
    }
  }

  /** From its execute on, as long as it stays, a process finds what followed the first space of its
      command. */
  lemma ArgumentsThroughRun(d: Disk, s: State, a: Ttys, e: Event, es: seq<Event>, name: string, rest: string)
    requires ValidDisk(d) && Represents(s, a) && e.Execute? && Executes(d, s, e)
    requires ' ' !in name && e.command == Some(name + " " + rest)
    requires (ExecuteKeepsWf(d, s, e); Orderly(d, ExecuteNext(d, s, e), es))
    requires (StepKeepsShape(d, a, e); Stays(d, Step(d, a, e), es, ExecuteNext(d, s, e).current))
    ensures Run(d, ExecuteNext(d, s, e), es).pcbs[ExecuteNext(d, s, e).current].args == rest
  {
    ArgumentsStored(d, s, a, e, name, rest);
    ExecuteSimulates(d, s, a, e);
    ArgumentsStay(d, ExecuteNext(d, s, e), Step(d, a, e), es, ExecuteNext(d, s, e).current);
  }

  // ---- Descriptors ----

  /** Descriptor 0 is the terminal's input, 1 its output, and the others are free. */
  predicate StandardDescriptors(fds: seq<Fd>) {
    && |fds| == 8
    && fds[0] == Fd(StdinFops, 0, 0, true) && fds[1] == Fd(StdoutFops, 0, 0, true)
    && forall i :: 2 <= i < 8 ==> !fds[i].inUse && fds[i].position == 0
  }

  lemma ChildDescriptors(d: Disk, s: State, a: Ttys, e: Event)
    requires ValidDisk(d) && Represents(s, a) && e.Execute? && Executes(d, s, e)
    ensures var r := ExecuteNext(d, s, e); Wf(r) && StandardDescriptors(r.pcbs[r.current].fds)
  {
    ExecuteEnters(d, s, a, e);
  }

  // ---- The program ----

  /** What a process finds at a virtual address, if it may look there. */
  function Found(s: State, p: nat, v: Address): Option<byte>
    requires Wf(s) && p < SLOTS
  {
    match Translate(s.dirs[p], s.table, v, true)
    case None => None
    case Some(physical) => Some(if physical in s.mem then s.mem[physical] else 0)
  }

  /** Byte `k` of the program file is at 0x8048000 + k. */
  lemma ProgramAt(d: Disk, s: State, a: Ttys, e: Event, name: string, n: nat, k: nat)
    requires ValidDisk(d) && Represents(s, a) && e.Execute? && Executes(d, s, e)
    requires Invokes(e.command.value, name) && NamesFile(d, name, n)
    requires k < |Content(d, n)| && 0x804_8000 + k < 0x840_0000 && BlocksBelow(d, n, k + 1)
    ensures var r := ExecuteNext(d, s, e);
            Wf(r) && Found(r, r.current, 0x804_8000 + k) == Some(Content(d, n)[k])
  {
    CommandParts(e.command.value, name);
    ExecuteKeepsWf(d, s, e);
    ImageLoaded(d, s, a, e, n, k);
    ExecuteMemory(d, s, a, e);
    var r := ExecuteNext(d, s, e);
    ProgramFrame(r.dirs[r.current], r.table, r.current, ImageOffset(k), true);
  }

  /** The address space of every process, in every state: page 0 is absent, the rest of the low 4 MB is
      itself, the kernel's page is itself and out of reach, the 4 MB from 128 MB on are the process's own
      frame, and there is nothing else. */
  lemma AddressSpace(s: State, a: Ttys, p: nat, v: Address, user: bool)
    requires Represents(s, a) && p < SLOTS && a.places[p].At?
    ensures Translate(s.dirs[p], s.table, v, user)
            == if v < 0x1000 then None
               else if v < 0x40_0000 then Some(v)
               else if v < 0x80_0000 then (if user then None else Some(v))
               else if 0x800_0000 <= v < 0x840_0000 then Some(0x40_0000 * (p + 1) + (v - 0x800_0000))
               else None
  {
    assert SlotOk(s, a, p);
    TranslatesHome(s.dirs[p], p, v, user);
  }

  /** What a process stores where it may it finds there, and it finds everything else as it was. */
  lemma StoreIsFound(s: State, a: Ttys, v: Address, value: byte, w: Address)
    requires Represents(s, a)
    ensures var r := StoreNext(s, v, value);
            && Wf(r) && Found(r, s.current, v) == (if Found(s, s.current, v) == None then None else Some(value))
            && (w != v ==> Found(r, s.current, w) == Found(s, s.current, w))
  {
    MeIsRunning(s, a);
    TopIsLeaf(s, a, a.active);
    AddressSpace(s, a, s.current, v, true);
    AddressSpace(s, a, s.current, w, true);
  }

  // ---- Bootup ----

  lemma RoundLoads(d: Disk, s: State, slot: nat, ctx: Context, n: nat, k: nat)
    requires ValidDisk(d) && Wf(s) && 0 < slot < SLOTS && Clean(s.dirs[slot]) && NamesFile(d, "shell", n)
    requires k < |Content(d, n)| && LOAD_ADDRESS + k < MB128 + MB4 && BlocksBelow(d, n, k + 1)
    ensures Wf(WithShell(d, s, slot, ctx))
    ensures UserByte(WithShell(d, s, slot, ctx), slot, ImageOffset(k)) == Content(d, n)[k]
  {
    ShellRound(d, s, slot, ctx);
    ImageIsFile(d, "shell", n);
    TaskDirectoryMaps(s.dirs[slot], slot);
    ByteLoaded(WithShell(d, s, slot, ctx), slot, s.mem, Image(d, "shell"), k);
  }

  lemma RoundKeeps(d: Disk, s: State, slot: nat, ctx: Context, p: nat, offset: Offset)
    requires ValidDisk(d) && Wf(s) && 0 < slot < SLOTS && 0 < p < SLOTS && p != slot
    requires Clean(s.dirs[slot]) && MapsTask(s.dirs[p], p)
    ensures Wf(WithShell(d, s, slot, ctx))
    ensures UserByte(WithShell(d, s, slot, ctx), p, offset) == UserByte(s, p, offset)
  {
    var r := WithShell(d, s, slot, ctx);
    ShellRound(d, s, slot, ctx);
    TaskDirectoryMaps(s.dirs[slot], slot);
    StoresKeep(r.dirs[slot], s.mem, LOAD_ADDRESS, Image(d, "shell"), slot, p, offset);
    SameByte(s, r, p, offset);
  }

  /** The states between bootup's rounds. */
  lemma BootRounds(d: Disk, s: State, ctx: Context) returns (s3: State, s2: State, s1: State)
    requires ValidDisk(d) && PowerOn(s)
    ensures s3 == WithShell(d, s, 3, ctx) && Wf(s3) && Clean(s3.dirs[2]) && MapsTask(s3.dirs[3], 3)
    ensures s2 == WithShell(d, s3, 2, ctx) && Wf(s2) && Clean(s2.dirs[1])
    ensures s2.pcbs[3] == s3.pcbs[3] && s2.dirs[3] == s3.dirs[3] && MapsTask(s2.dirs[2], 2)
    ensures s1 == WithShell(d, s2, 1, ctx) && Wf(s1) && s1.pcbs[3] == s3.pcbs[3] && s1.pcbs[2] == s2.pcbs[2]
    ensures Booted(d, s, ctx) == s1.(running := s.running + {1, 2, 3}, current := 1)
  {
    s3 := WithShell(d, s, 3, ctx);
    ShellRound(d, s, 3, ctx);
    s2 := WithShell(d, s3, 2, ctx);
    ShellRound(d, s3, 2, ctx);
    s1 := WithShell(d, s2, 1, ctx);
    ShellRound(d, s2, 1, ctx);
  }

  lemma SameRegion(r: State, s: State, p: nat, offset: Offset)
    requires Wf(r) && Wf(s) && p < SLOTS && r.dirs == s.dirs && r.table == s.table && r.mem == s.mem
    ensures UserByte(r, p, offset) == UserByte(s, p, offset)
  {
  }

  /** After bootup each of the three shells finds the file "shell" in its own region. */
  lemma ShellsLoaded(d: Disk, s: State, ctx: Context, p: nat, n: nat, k: nat)
    requires ValidDisk(d) && PowerOn(s) && 1 <= p <= 3 && NamesFile(d, "shell", n)
    requires k < |Content(d, n)| && LOAD_ADDRESS + k < MB128 + MB4 && BlocksBelow(d, n, k + 1)
    ensures Wf(Booted(d, s, ctx)) && UserByte(Booted(d, s, ctx), p, ImageOffset(k)) == Content(d, n)[k]
  {
    var s3, s2, s1 := BootRounds(d, s, ctx);
    BootRepresents(d, s, ctx);
    if p == 3 {
      RoundLoads(d, s, 3, ctx, n, k);
      RoundKeeps(d, s3, 2, ctx, 3, ImageOffset(k));
      RoundKeeps(d, s2, 1, ctx, 3, ImageOffset(k));
    } else if p == 2 {
      RoundLoads(d, s3, 2, ctx, n, k);
      RoundKeeps(d, s2, 1, ctx, 2, ImageOffset(k));
    } else {
      RoundLoads(d, s2, 1, ctx, n, k);
    }
    SameRegion(Booted(d, s, ctx), s1, p, ImageOffset(k));
  }

  lemma RoundFillsPcb(d: Disk, s: State, slot: nat, ctx: Context)
    requires ValidDisk(d) && Wf(s) && 0 < slot < SLOTS
    ensures var r := WithShell(d, s, slot, ctx); |r.pcbs| == SLOTS && ShellPcb(r.pcbs[slot], slot)
  {
  }

  /** A shell starts with the standard descriptors, at the root of its tty, and is resumed 60 bytes below
      the bottom of its own stack, where bootup builds the frames of the two that wait. */
  predicate ShellPcb(pcb: Pcb, p: nat) {
    && StandardDescriptors(pcb.fds) && pcb.number == p && pcb.parent == 0 && pcb.tty == p - 1
    && pcb.saved == Context(0x80_0000 - 0x2000 * p - 64, 0x80_0000 - 0x2000 * p - 64)
  }

  lemma ShellsReady(d: Disk, s: State, ctx: Context, p: nat)
    requires ValidDisk(d) && PowerOn(s) && 1 <= p <= 3
    ensures Wf(Booted(d, s, ctx)) && ShellPcb(Booted(d, s, ctx).pcbs[p], p)
  {
    var s3, s2, s1 := BootRounds(d, s, ctx);
    BootRepresents(d, s, ctx);
    RoundFillsPcb(d, s, 3, ctx);
    RoundFillsPcb(d, s3, 2, ctx);
    RoundFillsPcb(d, s2, 1, ctx);
  }
}

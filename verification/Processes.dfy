/** The process table of student-distrib/syscalls.c, scheduler.c and paging.c as a value,
    and one function per kernel entry that says what the entry leaves behind. */
module Processes {
  import opened Basics
  import opened FileSystem
  import opened SlotMask

  const KB8 := 0x2000
  const MB4 := 0x40_0000
  const MB8 := 0x80_0000
  const MB128 := 0x800_0000
  const PCB_SIZE := 512
  const LOAD_ADDRESS := 0x804_8000
  const ENTRY_POINT_OFFSET := 24
  const INITIAL_STACK := 60
  const MAX_NAME := 32
  const ARG_SIZE := 100
  const PROGRAM_ENTRY := 0x20
  const TABLE_SIZE := 1024
  const MAGIC: seq<byte> := [0x7f, 0x45, 0x4c, 0x46]

  // ---- Kernel stacks, each with its PCB at the low end ----

  function StackBottom(slot: nat): int { MB8 - KB8 * slot - 4 }

  function PcbAddress(slot: nat): int { MB8 - KB8 * (slot + 1) }

  /** a & 0xFFFFE000 */
  function Align8KB(a: int): int { a - a % KB8 }

  function SlotOf(address: int): int { (MB8 - Align8KB(address)) / KB8 - 1 }

  /** How far a kernel stack has grown; it never reaches the PCB below it. */
  type Depth = n: nat | n <= KB8 - 4 - PCB_SIZE

  /** Masking any stack pointer of a slot's stack gives that slot's PCB. */
  lemma MaskFindsPcb(slot: nat, depth: Depth)
    requires slot < SLOTS
    ensures Align8KB(StackBottom(slot) - depth) == PcbAddress(slot)
    ensures SlotOf(StackBottom(slot) - depth) == slot
  {
  }

  datatype Context = Context(esp: int, ebp: int)

  function Grown(bottom: int, esp: Depth, ebp: Depth): Context {
    Context(bottom - esp, bottom - ebp)
  }

  predicate InStack(c: Context, slot: nat) {
    && 0 <= StackBottom(slot) - c.esp <= KB8 - 4 - PCB_SIZE
    && 0 <= StackBottom(slot) - c.ebp <= KB8 - 4 - PCB_SIZE
  }

  // ---- Paging ----

  datatype Pde = Absent | LowTable(user: bool) | Page4MB(user: bool, frame: nat)

  datatype Pte = Pte(present: bool, frame: nat)

  type Directory = e: seq<Pde> | |e| == TABLE_SIZE witness seq(TABLE_SIZE, _ => Absent)

  type Table = e: seq<Pte> | |e| == TABLE_SIZE witness seq(TABLE_SIZE, _ => Pte(false, 0))

  /** The page table setup_new_task fills: the low 4 MB mapped one to one, page 0 absent. */
  function IdentityTable(): Table {
    seq(TABLE_SIZE, i requires 0 <= i < TABLE_SIZE => Pte(i != 0, i))
  }

  /** The page directory setup_new_task leaves in a slot. */
  function TaskDirectory(was: Directory, slot: nat): Directory {
    was[0 := LowTable(true)][1 := Page4MB(false, 1)][PROGRAM_ENTRY := Page4MB(true, slot + 1)]
  }

  type Address = a: nat | a < 0x1_0000_0000

  /** 32-bit paging; `user` asks for a user-mode access. */
  function Translate(dir: Directory, table: Table, v: Address, user: bool): Option<nat> {
    match dir[v / MB4]
    case Absent => None
    case Page4MB(u, frame) => if user && !u then None else Some(frame * MB4 + v % MB4)
    case LowTable(u) =>
      var pte := table[v % MB4 / PAGE_SIZE];
      if (user && !u) || !pte.present then None else Some(pte.frame * PAGE_SIZE + v % PAGE_SIZE)
  }

  // ---- The state ----

  datatype Fops = NoFops | StdinFops | StdoutFops | RtcFops | DirFops | FileFops

  datatype Fd = Fd(fops: Fops, inode: nat, position: int, inUse: bool)

  datatype Pcb = Pcb(fds: seq<Fd>, names: seq<string>, parentContext: Context, number: nat, parent: nat,
                     args: string, hasChild: bool, tty: nat, saved: Context)

  /** `running` is the set of slots whose bit is set in running_processes; `cr3` is the slot
      whose page directory is loaded; `regs` is the kernel context last stored or resumed. */
  datatype State = State(running: set<nat>, current: nat, pcbs: seq<Pcb>, stackBottom: int, esp0: int,
                         cr3: nat, dirs: seq<Directory>, table: Table, mem: map<nat, byte>,
                         dirReads: nat, regs: Context)

  predicate IsBottom(a: int) { 0 <= SlotOf(a) < SLOTS && a == StackBottom(SlotOf(a)) }

  predicate WfPcb(p: Pcb) {
    |p.fds| == 8 && |p.names| == 8 && p.number < SLOTS && p.parent < SLOTS
  }

  /** What the C declarations alone say about the state. */
  predicate Wf(s: State) {
    && |s.pcbs| == SLOTS && |s.dirs| == SLOTS && s.current < SLOTS && s.cr3 < SLOTS
    && (forall i :: i in s.running ==> i < SLOTS)
    && (forall i :: 0 <= i < SLOTS ==> WfPcb(s.pcbs[i]))
    && IsBottom(s.stackBottom) && IsBottom(s.esp0)
  }

  // ---- Commands ----

  function FirstSpace(c: string): (i: nat)
    ensures i <= |c|
    ensures i < |c| ==> c[i] == ' '
    ensures forall k :: 0 <= k < i ==> c[k] != ' '
  {
    if c == "" || c[0] == ' ' then 0 else 1 + FirstSpace(c[1..])
  }

  function ProgramName(c: string): string { c[..FirstSpace(c)] }

  function Arguments(c: string): string {
    if FirstSpace(c) < |c| then c[FirstSpace(c) + 1..] else ""
  }

  /** A command whose arguments, with their terminator, fit the PCB's argument buffer. */
  type Command = c: string | |Arguments(c)| < ARG_SIZE witness ""

  type FourBytes = b: seq<byte> | |b| == 4 witness [0, 0, 0, 0]

  /** The four-byte buffer after a read into it; `junk` is what it held before. */
  function Filled(junk: FourBytes, r: ReadOutcome): FourBytes
    requires |r.bytes| <= 4
  {
    r.bytes + junk[|r.bytes|..]
  }

  lemma ReadAtMost(d: Disk, name: string, offset: nat, length: nat)
    requires ValidDisk(d)
    ensures |FsRead(d, name, offset, length).bytes| <= length
  {
  }

  /** The checks execute makes before it claims a slot. */
  predicate Loadable(d: Disk, command: Option<Command>, junk: FourBytes)
    requires ValidDisk(d)
  {
    command.Some? &&
    var name := ProgramName(command.value);
    && |name| <= MAX_NAME
    && FsRead(d, name, 0, 4).ret != -1
    && (ReadAtMost(d, name, 0, 4); Filled(junk, FsRead(d, name, 0, 4)) == MAGIC)
  }

  /** Once the first read has succeeded, the read of the entry point cannot fail. */
  lemma EntryReadSucceeds(d: Disk, name: string)
    requires ValidDisk(d)
    requires FsRead(d, name, 0, 4).ret != -1
    ensures FsRead(d, name, ENTRY_POINT_OFFSET, 4).ret != -1
  {
  }

  /** The four bytes are the entry point that the file of that name gives in its bytes 24 to 27. */
  predicate BeginsAt(d: Disk, name: string, entry: seq<byte>)
    requires ValidDisk(d)
  {
    forall n :: 0 <= n < |d.inodes| && NamesFile(d, name, n) && |Content(d, n)| >= 28 ==> entry == Content(d, n)[24..28]
  }

  lemma EntryPointIs(d: Disk, name: string, entry: seq<byte>)
    requires ValidDisk(d) && FsRead(d, name, ENTRY_POINT_OFFSET, 4).ret != -1 && |entry| == 4
    requires FsRead(d, name, ENTRY_POINT_OFFSET, 4).bytes <= entry
    ensures BeginsAt(d, name, entry)
  {
    forall n | 0 <= n < |d.inodes| && NamesFile(d, name, n) && |Content(d, n)| >= 28
      ensures entry == Content(d, n)[24..28]
    {
      ReadFailsIff(d, n, 24, 4);
    }
  }

  // ---- Entries ----

  /** A read system call: its arguments, and what the keyboard driver holds for a read of the
      terminal. */
  datatype ReadCall = ReadCall(fd: int, buf: Address, nbytes: int, typed: seq<byte>)

  function Nothing(): State {
    State({}, 0,
          seq(SLOTS, _ => Pcb(seq(8, _ => Fd(NoFops, 0, 0, false)), seq(8, _ => ""), Context(0, 0), 0, 0, "", false, 0,
                              Context(0, 0))),
          StackBottom(0), StackBottom(0), 0, seq(SLOTS, _ => seq(TABLE_SIZE, _ => Absent)),
          seq(TABLE_SIZE, _ => Pte(false, 0)), map[], 0, Context(0, 0))
  }

  /** Any state at all: what may be left of the kernel once a read has stored over it. */
  type Wreck = s: State | Wf(s) witness Nothing()

  /** What happens to the kernel: a system call by the current process, a timer interrupt, or a
      user-mode store by the current process. `esp` and `ebp` say how far the kernel stack has
      grown when the entry stores its stack pointers; `junk` and `junkArgs` are the uninitialised
      stack contents that execute can see; `wreck` is the state after a read that stores into the
      kernel's own page. */
  datatype Event =
    | Execute(command: Option<Command>, junk: FourBytes, junkArgs: string, esp: Depth, ebp: Depth)
    | Halt(status: byte)
    | Tick(esp: Depth, ebp: Depth)
    | Open(name: string)
    | Read(call: ReadCall, wreck: Wreck)
    | Close(fd: int)
    | Store(address: Address, value: byte)

  /** The lowest slot from `i` on that is not running, or 8. */
  function FirstFree(running: set<nat>, i: nat): (r: nat)
    requires i <= SLOTS
    ensures i <= r <= SLOTS
    ensures r < SLOTS ==> r !in running
    ensures forall k :: i <= k < r ==> k in running
    decreases SLOTS - i
  {
    if i == SLOTS || i !in running then i else FirstFree(running, i + 1)
  }

  function ResetFd(f: Fd): Fd { Fd(f.fops, 0, 0, false) }

  function ResetFds(fds: seq<Fd>): (r: seq<Fd>)
    ensures |r| == |fds|
  {
    seq(|fds|, i requires 0 <= i < |fds| => ResetFd(fds[i]))
  }

  function WithStdio(fds: seq<Fd>): seq<Fd>
    requires |fds| == 8
  {
    fds[0 := fds[0].(fops := StdinFops, inUse := true)][1 := fds[1].(fops := StdoutFops, inUse := true)]
  }

  function U32(x: int): Address { x % 0x1_0000_0000 }

  function I32(x: int): int { (x + 0x8000_0000) % 0x1_0000_0000 - 0x8000_0000 }

  /** The address `i` bytes on. */
  function Onward(at: Address, i: nat): Address { U32(at + i) }

  /** Physical memory after the kernel stores the bytes at consecutive virtual addresses; a byte that
      falls outside the mapped pages is not stored. */
  function Stored(dir: Directory, table: Table, mem: map<nat, byte>, at: Address, bytes: seq<byte>): map<nat, byte>
    decreases |bytes|
  {
    if bytes == [] then mem
    else
      var last := |bytes| - 1;
      var before := Stored(dir, table, mem, at, bytes[..last]);
      match Translate(dir, table, Onward(at, last), false)
      case None => before
      case Some(physical) => before[physical := bytes[last]]
  }

  /** What fs_load copies to the program address. */
  function Image(d: Disk, name: string): (b: seq<byte>)
    requires ValidDisk(d)
    ensures |b| <= MAX_BLOCKS * PAGE_SIZE
  {
    match Lookup(d, name)
    case None => []
    case Some(dentry) =>
      if dentry.inode >= |d.inodes| then []
      else
        ReadAtMost(d, name, 0, d.inodes[dentry.inode].size);
        ReadSpec(d, dentry.inode, 0, d.inodes[dentry.inode].size).bytes
  }

  /** setup_new_task and fs_load for one slot. */
  function Mapped(d: Disk, s: State, slot: nat, name: string): State
    requires ValidDisk(d) && Wf(s) && slot < SLOTS
  {
    var dir := TaskDirectory(s.dirs[slot], slot);
    s.(dirs := s.dirs[slot := dir], table := IdentityTable(), cr3 := slot,
       mem := Stored(dir, IdentityTable(), s.mem, LOAD_ADDRESS, Image(d, name)))
  }

  /** The PCBs once execute has filled in the new process's; `first` is the case of a process
      started with nothing else running. */
  function SpawnedPcbs(pcbs: seq<Pcb>, slot: nat, ctx: Context, first: bool, args: string): (r: seq<Pcb>)
    requires |pcbs| == SLOTS && slot < SLOTS && 0 <= SlotOf(ctx.esp) < SLOTS
    requires forall i :: 0 <= i < SLOTS ==> WfPcb(pcbs[i])
    ensures |r| == SLOTS
  {
    assert WfPcb(pcbs[slot]);
    var caller := SlotOf(ctx.esp);
    var marked := if first then pcbs else pcbs[caller := pcbs[caller].(hasChild := true)];
    var pcb := marked[slot].(parentContext := ctx,
                             parent := if first then 0 else pcbs[caller].number,
                             tty := if first then 1 else pcbs[caller].tty,
                             number := slot,
                             fds := WithStdio(ResetFds(pcbs[slot].fds)),
                             args := args);
    marked[slot := pcb]
  }

  /** The rest of execute once the slot is claimed and the entry point is known. */
  function Spawned(d: Disk, s: State, slot: nat, name: string, args: string, ctx: Context): State
    requires ValidDisk(d) && Wf(s) && slot < SLOTS && 0 <= SlotOf(ctx.esp) < SLOTS
  {
    Mapped(d, s, slot, name).(pcbs := SpawnedPcbs(s.pcbs, slot, ctx, s.running == {0, 1}, args),
                              stackBottom := StackBottom(slot), esp0 := StackBottom(slot), regs := ctx)
  }

  lemma SpawnedWf(d: Disk, s: State, slot: nat, name: string, args: string, ctx: Context)
    requires ValidDisk(d) && Wf(s) && slot < SLOTS && 0 <= SlotOf(ctx.esp) < SLOTS
    ensures Wf(Spawned(d, s, slot, name, args, ctx))
  {
    MaskFindsPcb(slot, 0);
  }

  /** The table between the claim of a slot and the rest of execute. */
  function Claimed(s: State, slot: nat): State {
    s.(running := s.running + {slot}, current := slot)
  }

  /** The argument string execute stores; without a space in the command it is left-over stack. */
  function ArgumentsFor(e: Event): string
    requires e.Execute? && e.command.Some?
  {
    if FirstSpace(e.command.value) < |e.command.value| then Arguments(e.command.value) else e.junkArgs
  }

  /** Whether execute gets as far as claiming a slot. */
  predicate Executes(d: Disk, s: State, e: Event)
    requires ValidDisk(d) && e.Execute?
  {
    Loadable(d, e.command, e.junk) && FirstFree(s.running, 0) < SLOTS
  }

  function ExecuteNext(d: Disk, s: State, e: Event): State
    requires ValidDisk(d) && Wf(s) && e.Execute?
  {
    var slot := FirstFree(s.running, 0);
    if !Executes(d, s, e) then s
    else
      var name := ProgramName(e.command.value);
      if FsRead(d, name, ENTRY_POINT_OFFSET, 4).ret == -1 then Claimed(s, slot)
      else
        MaskFindsPcb(SlotOf(s.esp0), e.esp);
        Spawned(d, Claimed(s, slot), slot, name, ArgumentsFor(e), Grown(s.esp0, e.esp, e.ebp))
  }

  /** `r` is `s` with a new process entered in `slot` as a child of `caller`. */
  predicate Enters(s: State, r: State, slot: nat, caller: nat, ctx: Context)
    requires Wf(s) && slot < SLOTS && caller < SLOTS
  {
    && Wf(r) && r.running == s.running && r.current == s.current
    && r.cr3 == slot && r.stackBottom == r.esp0 == StackBottom(slot) && r.regs == ctx
    && r.table == IdentityTable() && r.dirReads == s.dirReads
    && r.dirs == s.dirs[slot := TaskDirectory(s.dirs[slot], slot)]
    && r.pcbs[caller] == s.pcbs[caller].(hasChild := true)
    && r.pcbs[slot] == s.pcbs[slot].(parentContext := ctx, parent := s.pcbs[caller].number,
                                     tty := s.pcbs[caller].tty, number := slot,
                                     fds := WithStdio(ResetFds(s.pcbs[slot].fds)), args := r.pcbs[slot].args)
    && forall p :: 0 <= p < SLOTS && p != slot && p != caller ==> r.pcbs[p] == s.pcbs[p]
  }

  predicate Entered(s: State, r: State, slot: nat, caller: nat, ctx: Context)
    requires Wf(s) && slot < SLOTS && caller < SLOTS
  {
    Enters(s, r, slot, caller, ctx)
  }

  predicate CanEnter(s: State, slot: nat, caller: nat, ctx: Context) {
    && Wf(s) && slot < SLOTS && caller == SlotOf(ctx.esp) && caller < SLOTS && caller != slot
    && s.running != {0, 1}
  }

  /** The slot is claimed, and the context is that of another process's stack. */
  predicate MayEnter(s: State, slot: nat, caller: nat, ctx: Context) { CanEnter(s, slot, caller, ctx) }

  lemma SpawnEnters(d: Disk, s: State, slot: nat, name: string, args: string, ctx: Context, caller: nat)
    requires ValidDisk(d) && MayEnter(s, slot, caller, ctx)
    ensures Entered(s, Spawned(d, s, slot, name, args, ctx), slot, caller, ctx)
    ensures Spawned(d, s, slot, name, args, ctx).pcbs[slot].args == args
  {
    SpawnedWf(d, s, slot, name, args, ctx);
  }

  /** halt: a root shell is restarted in place; any other process hands back to its parent. */
  function HaltNext(s: State): State
    requires Wf(s)
  {
    var pcb := s.pcbs[SlotOf(s.stackBottom)];
    if pcb.parent == 0 then s
    else
      s.(running := s.running - {pcb.number}, current := pcb.parent,
         pcbs := s.pcbs[pcb.parent := s.pcbs[pcb.parent].(hasChild := false)],
         cr3 := pcb.parent,
         stackBottom := StackBottom(pcb.parent), esp0 := StackBottom(pcb.parent), regs := pcb.parentContext)
  }

  predicate Leaf(s: State, slot: nat)
    requires |s.pcbs| == SLOTS && slot < SLOTS
  {
    slot in s.running && slot != 0 && !s.pcbs[slot].hasChild
  }

  /** The first leaf met `k`, `k + 1`, ... slots after the current one, else the current one. */
  function NextLeaf(s: State, k: nat): (r: nat)
    requires Wf(s) && 1 <= k <= SLOTS
    ensures r < SLOTS
    decreases SLOTS - k
  {
    if k == SLOTS then s.current
    else if Leaf(s, After(s.current, k)) then After(s.current, k)
    else NextLeaf(s, k + 1)
  }

  /** The scan from `k` on stops at the first leaf, or back at the current slot. */
  lemma {:induction false} ScanFindsNearest(s: State, k: nat, m: nat)
    requires Wf(s) && 1 <= k <= m <= SLOTS && (m < SLOTS ==> Leaf(s, After(s.current, m)))
    requires forall j :: k <= j < m ==> !Leaf(s, After(s.current, j))
    ensures NextLeaf(s, k) == After(s.current, m)
    decreases SLOTS - k
  {
    if k < m {
      ScanFindsNearest(s, k + 1, m);
    }
  }

  /** pit_interruption: the next leaf in slot order gets the processor. */
  function TickNext(s: State, esp: Depth, ebp: Depth): State
    requires Wf(s)
  {
    var next := NextLeaf(s, 1);
    if next == s.current then s
    else
      var out := s.pcbs[s.current].(saved := Grown(s.esp0, esp, ebp));
      var pcbs := s.pcbs[s.current := out];
      s.(current := next, pcbs := pcbs, cr3 := next,
         stackBottom := StackBottom(next), esp0 := StackBottom(next), regs := pcbs[next].saved)
  }

  // ---- Descriptors ----

  function Me(s: State): nat
    requires Wf(s)
  {
    SlotOf(s.stackBottom)
  }

  predicate StartsWith(name: string, prefix: string) { |prefix| <= |name| && name[..|prefix|] == prefix }

  function FirstFreeFd(fds: seq<Fd>, i: nat): (r: nat)
    requires |fds| == 8 && i <= 8
    ensures i <= r <= 8
    ensures r < 8 ==> !fds[r].inUse
    ensures forall k :: i <= k < r ==> fds[k].inUse
    decreases 8 - i
  {
    if i == 8 || !fds[i].inUse then i else FirstFreeFd(fds, i + 1)
  }

  function FopsFor(filetype: nat, was: Fops): Fops {
    if filetype == 0 then RtcFops else if filetype == 1 then DirFops else if filetype == 2 then FileFops else was
  }

  function OpenReturn(d: Disk, s: State, name: string): int
    requires ValidDisk(d) && Wf(s)
  {
    if StartsWith(name, "stdin") || StartsWith(name, "stdou") then 0
    else if Lookup(d, name) == None then -1
    else
      var fd := FirstFreeFd(s.pcbs[Me(s)].fds, 2);
      if fd == 8 then -1 else fd
  }

  function WithFd(s: State, fd: nat, f: Fd): State
    requires Wf(s) && fd < 8
  {
    var me := Me(s);
    s.(pcbs := s.pcbs[me := s.pcbs[me].(fds := s.pcbs[me].fds[fd := f])])
  }

  function OpenNext(d: Disk, s: State, name: string): State
    requires ValidDisk(d) && Wf(s)
  {
    var me := Me(s);
    var fds := s.pcbs[me].fds;
    if StartsWith(name, "stdin") then WithFd(s, 0, fds[0].(fops := StdinFops, inUse := true))
    else if StartsWith(name, "stdou") then WithFd(s, 1, fds[1].(fops := StdoutFops, inUse := true))
    else
      var fd := OpenReturn(d, s, name);
      if fd == -1 then s
      else
        var dentry := Lookup(d, name).value;
        var f := Fd(FopsFor(dentry.filetype, fds[fd].fops), dentry.inode, fds[fd].position, true);
        s.(pcbs := s.pcbs[me := s.pcbs[me].(fds := fds[fd := f], names := s.pcbs[me].names[fd := name])])
  }

  function Bytes(s: string): (b: seq<byte>)
    ensures |b| == |s|
  {
    seq(|s|, i requires 0 <= i < |s| => s[i] as int % 256)
  }

  /** The buffer has room for what a read by name can deliver. */
  predicate Fits(d: Disk, name: string, offset: nat, length: nat, room: int)
    requires ValidDisk(d)
  {
    match Lookup(d, name)
    case None => true
    case Some(dentry) =>
      dentry.inode < |d.inodes| && offset < d.inodes[dentry.inode].size ==>
        Min(length, d.inodes[dentry.inode].size - offset) <= room
  }

  /** The checks read makes on its arguments. */
  predicate Readable(s: State, c: ReadCall)
    requires Wf(s)
  {
    0 <= c.fd <= 7 && c.buf != 0 && s.pcbs[Me(s)].fds[c.fd].inUse
  }

  /** What a read system call returns and stores. */
  function ReadReply(d: Disk, s: State, c: ReadCall): ReadOutcome
    requires ValidDisk(d) && Wf(s)
  {
    if !Readable(s, c) then ReadOutcome(-1, [])
    else
      var pcb := s.pcbs[Me(s)];
      match pcb.fds[c.fd].fops
      case FileFops => FsRead(d, pcb.names[c.fd], U32(pcb.fds[c.fd].position), U32(c.nbytes))
      case DirFops =>
        if s.dirReads >= d.numDentries then ReadOutcome(0, [])
        else
          var name := d.dentries[s.dirReads].name;
          ReadOutcome(|name|, Bytes(name) + [0])
      case StdinFops => ReadOutcome(Max(c.nbytes, 0), c.typed[..Min(|c.typed|, Max(c.nbytes, 0))])
      case _ => ReadOutcome(0, [])
  }

  /** What the code of read does: the bytes go through the loaded page directory, in supervisor
      mode, and the position moves by the return value. */
  function ReadDone(d: Disk, s: State, c: ReadCall): State
    requires ValidDisk(d) && Wf(s)
  {
    if !Readable(s, c) then s
    else
      var f := s.pcbs[Me(s)].fds[c.fd];
      var r := ReadReply(d, s, c);
      var moved := WithFd(s, c.fd, f.(position := I32(f.position + r.ret)));
      moved.(mem := Stored(s.dirs[s.cr3], s.table, s.mem, c.buf, r.bytes),
             dirReads := if !f.fops.DirFops? then s.dirReads
                         else if s.dirReads >= d.numDentries then 0 else s.dirReads + 1)
  }

  predicate InKernel(physical: Option<nat>) { physical.Some? && MB4 <= physical.value < MB8 }

  /** The stores of a read keep clear of the kernel's own page, where the process table, the page
      directories and the kernel stacks are. */
  predicate KernelSpared(d: Disk, s: State, c: ReadCall)
    requires ValidDisk(d) && Wf(s)
  {
    forall i :: 0 <= i < |ReadReply(d, s, c).bytes| ==>
      !InKernel(Translate(s.dirs[s.cr3], s.table, Onward(c.buf, i), false))
  }

  /** read does not check where its buffer is. Once it stores over the kernel, anything may be left. */
  function ReadNext(d: Disk, s: State, c: ReadCall, wreck: Wreck): State
    requires ValidDisk(d) && Wf(s)
  {
    if KernelSpared(d, s, c) then ReadDone(d, s, c) else wreck
  }

  function CloseReturn(s: State, fd: int): int
    requires Wf(s)
  {
    if fd < 2 || fd > 7 || !s.pcbs[Me(s)].fds[fd].inUse then -1 else 0
  }

  function CloseNext(s: State, fd: int): State
    requires Wf(s)
  {
    if CloseReturn(s, fd) == -1 then s else WithFd(s, fd, Fd(NoFops, 0, 0, false))
  }

  /** A user-mode store by the current process, through the loaded page directory. */
  function StoreNext(s: State, address: Address, value: byte): State
    requires Wf(s)
  {
    match Translate(s.dirs[s.cr3], s.table, address, true)
    case None => s
    case Some(physical) => s.(mem := s.mem[physical := value])
  }

  function Next(d: Disk, s: State, e: Event): State
    requires ValidDisk(d) && Wf(s)
  {
    match e
    case Execute(_, _, _, _, _) => ExecuteNext(d, s, e)
    case Halt(_) => HaltNext(s)
    case Tick(esp, ebp) => TickNext(s, esp, ebp)
    case Open(name) => OpenNext(d, s, name)
    case Read(call, wreck) => ReadNext(d, s, call, wreck)
    case Close(fd) => CloseNext(s, fd)
    case Store(address, value) => StoreNext(s, address, value)
  }

  /** The entry does not store over the kernel. */
  predicate Spares(d: Disk, s: State, e: Event)
    requires ValidDisk(d) && Wf(s)
  {
    e.Read? ==> KernelSpared(d, s, e.call)
  }
}

/** The kernel entries as the C code runs them: loops over mask bits and descriptors, and fields
    updated one after another. Each is proved to leave exactly the state its function in
    Processes describes. */
module Kernel {
  import opened Basics
  import opened FileSystem
  import opened Processes
  import opened SlotMask
  import opened Runs

  /** Splits a command at its first space, character by character. */
  method SplitCommand(command: string) returns (ok: bool, name: string, args: string)
    ensures ok <==> |ProgramName(command)| <= MAX_NAME
    ensures ok ==> name == ProgramName(command) && args == Arguments(command)
  {
    name, args := "", "";
    var i, firstSpaceReached := 0, false;
    while i < |command|
      invariant 0 <= i <= |command|
      invariant firstSpaceReached <==> FirstSpace(command) < i
      invariant !firstSpaceReached ==> name == command[..i] && args == "" && i <= MAX_NAME
      invariant firstSpaceReached ==>
                  name == ProgramName(command) && |name| <= MAX_NAME && args == command[FirstSpace(command) + 1..i]
    {
      if command[i] == ' ' && !firstSpaceReached {
        firstSpaceReached := true;
      } else if firstSpaceReached {
        args := args + [command[i]];
      } else {
        if i >= 32 {
          return false, name, args;
        }
        name := name + [command[i]];
      }
      i := i + 1;
    }
    return true, name, args;
  }

  /** fs_read into a buffer; `total` counts the bytes stored. */
  method FsReadInto(d: Disk, name: string, offset: nat, buf: array<byte>, length: nat) returns (ret: int, total: nat)
    requires ValidDisk(d) && Fits(d, name, offset, length, buf.Length)
    modifies buf
    ensures ret == FsRead(d, name, offset, length).ret && total == |FsRead(d, name, offset, length).bytes| <= buf.Length
    ensures buf[..] == Overlaid(old(buf[..]), 0, FsRead(d, name, offset, length).bytes)
  {
    var dentry := ReadDentryByName(d, name);
    if dentry == None {
      return -1, 0;
    }
    ret, total := ReadData(d, dentry.value.inode, offset, buf, 0, length);
  }

  /** The read of the first bytes of the file, over what the stack holds. */
  method ReadMagic(d: Disk, name: string, junk: FourBytes) returns (ret: int, magic: seq<byte>)
    requires ValidDisk(d)
    ensures ret == FsRead(d, name, 0, 4).ret
    ensures |FsRead(d, name, 0, 4).bytes| <= 4 && magic == Filled(junk, FsRead(d, name, 0, 4))
  {
    var buf := new byte[4](i requires 0 <= i < 4 => junk[i]);
    ReadAtMost(d, name, 0, 4);
    assert buf[..] == junk;
    var total;
    ret, total := FsReadInto(d, name, 0, buf, 4);
    magic := buf[..];
  }

  /** execute's checks on the command and on the first bytes of the file it names. */
  method CheckProgram(d: Disk, command: Option<Command>, junk: FourBytes) returns (ok: bool, name: string, args: string)
    requires ValidDisk(d)
    ensures ok <==> Loadable(d, command, junk)
    ensures ok ==> name == ProgramName(command.value) && args == Arguments(command.value)
  {
    if command == None {
      return false, "", "";
    }
    ok, name, args := SplitCommand(command.value);
    if !ok {
      return;
    }
    var ret, magic := ReadMagic(d, name, junk);
    ok := ret != -1 && magic == MAGIC;
  }

  /** The read of a program's entry point. */
  method ReadEntryPoint(d: Disk, name: string) returns (ret: int, entryPoint: seq<byte>)
    requires ValidDisk(d)
    ensures ret == FsRead(d, name, ENTRY_POINT_OFFSET, 4).ret
    ensures |entryPoint| == 4 && FsRead(d, name, ENTRY_POINT_OFFSET, 4).bytes <= entryPoint
    ensures ret != -1 ==> BeginsAt(d, name, entryPoint)
  {
    var buf := new byte[4](_ => 0);
    ReadAtMost(d, name, ENTRY_POINT_OFFSET, 4);
    var total;
    ret, total := FsReadInto(d, name, ENTRY_POINT_OFFSET, buf, 4);
    entryPoint := buf[..];
    if ret != -1 {
      EntryPointIs(d, name, entryPoint);
    }
  }

  /** The PCB writes of execute, in their order. */
  method FillPcb(pcbs: seq<Pcb>, slot: nat, ctx: Context, first: bool, args: string) returns (r: seq<Pcb>)
    requires |pcbs| == SLOTS && slot < SLOTS && 0 <= SlotOf(ctx.esp) < SLOTS
    requires forall i :: 0 <= i < SLOTS ==> WfPcb(pcbs[i])
    ensures r == SpawnedPcbs(pcbs, slot, ctx, first, args)
  {
    var caller := SlotOf(ctx.esp);
    r := pcbs[slot := pcbs[slot].(parentContext := ctx)];
    if first {
      r := r[slot := r[slot].(parent := 0, tty := 1)];
    } else {
      r := r[slot := r[slot].(parent := r[caller].number)];
      r := r[caller := r[caller].(hasChild := true)];
      r := r[slot := r[slot].(tty := r[caller].tty)];
    }
    var fds := r[slot].fds;
    for i := 0 to 8
      invariant |fds| == 8
      invariant forall k :: 0 <= k < 8 ==> fds[k] == if k < i then ResetFd(r[slot].fds[k]) else r[slot].fds[k]
    {
      fds := fds[i := fds[i].(inode := 0)];
      fds := fds[i := fds[i].(position := 0)];
      fds := fds[i := fds[i].(inUse := false)];
    }
    assert fds == ResetFds(r[slot].fds);
    fds := fds[0 := fds[0].(fops := StdinFops, inUse := true)];
    fds := fds[1 := fds[1].(fops := StdoutFops, inUse := true)];
    r := r[slot := r[slot].(number := slot, fds := fds, args := args)];
    assert r == SpawnedPcbs(pcbs, slot, ctx, first, args);
  }

  /** open's search for a descriptor. */
  method FindFd(fds: seq<Fd>) returns (fd: nat)
    requires |fds| == 8
    ensures fd == FirstFreeFd(fds, 2)
  {
    for i := 2 to 8
      invariant FirstFreeFd(fds, 2) == FirstFreeFd(fds, i)
    {
      if !fds[i].inUse {
        return i;
      }
    }
    return 8;
  }

  /** dir_read: the next name and its terminator, or the end of the directory. */
  method DirRead(d: Disk, done: nat) returns (ret: int, now: nat, bytes: seq<byte>)
    requires ValidDisk(d)
    ensures done >= d.numDentries ==> ret == 0 && now == 0 && bytes == []
    ensures done < d.numDentries ==>
              bytes == Bytes(d.dentries[done].name) + [0] && ret == |bytes| - 1 && now == done + 1
  {
    if done >= d.numDentries {
      return 0, 0, [];
    }
    var name := d.dentries[done].name;
    bytes := [];
    var i := 0;
    while i < |name|
      invariant 0 <= i <= |name| && bytes == Bytes(name)[..i]
    {
      bytes := bytes + [name[i] as int % 256];
      i := i + 1;
    }
    bytes := bytes + [0];
    return |name|, done + 1, bytes;
  }

  class Kernel {
    const disk: Disk
    var runningProcesses: bv8
    var current: nat
    var pcbs: seq<Pcb>
    var kernelStackBottom: int
    var esp0: int
    var cr3: nat
    var pageDirectories: seq<Directory>
    var newPageTable: Table
    var memory: map<nat, byte>
    var dirReads: nat
    var regs: Context

    function Abs(): State
      reads this
    {
      State(Slots(runningProcesses), current, pcbs, kernelStackBottom, esp0, cr3, pageDirectories,
            newPageTable, memory, dirReads, regs)
    }

    ghost predicate Valid()
      reads this
    {
      ValidDisk(disk) && Wf(Abs())
    }

    /** setup_new_task */
    method SetupNewTask(slot: nat) returns (ret: int)
      requires |pageDirectories| == SLOTS
      modifies this`newPageTable, this`pageDirectories, this`cr3
      ensures slot >= SLOTS ==>
                ret == -1 && unchanged(this)
      ensures slot < SLOTS ==>
                && ret == 0 && cr3 == slot && newPageTable == IdentityTable()
                && pageDirectories == old(pageDirectories)[slot := TaskDirectory(old(pageDirectories[slot]), slot)]
    {
      if slot >= SLOTS {
        return -1;
      }
      var table := newPageTable;
      for i := 0 to TABLE_SIZE
        invariant |table| == TABLE_SIZE
        invariant forall k :: 0 <= k < i ==> table[k] == Pte(k != 0, k)
      {
        table := table[i := Pte(i != 0, i)];
      }
      newPageTable := table;
      var dir := pageDirectories[slot];
      dir := dir[0 := LowTable(true)];
      dir := dir[1 := Page4MB(false, 1)];
      dir := dir[PROGRAM_ENTRY := Page4MB(true, slot + 1)];
      pageDirectories := pageDirectories[slot := dir];
      cr3 := slot;
      return 0;
    }

    /** Stores by kernel code, one byte after another, through the loaded page directory. */
    method StoreBytes(at: Address, bytes: seq<byte>)
      requires cr3 < |pageDirectories|
      modifies this`memory
      ensures memory == Stored(pageDirectories[cr3], newPageTable, old(memory), at, bytes)
    {
      for i := 0 to |bytes|
        invariant memory == Stored(pageDirectories[cr3], newPageTable, old(memory), at, bytes[..i])
      {
        assert bytes[..i + 1][..i] == bytes[..i];
        var physical := Translate(pageDirectories[cr3], newPageTable, Onward(at, i), false);
        if physical.Some? {
          memory := memory[physical.value := bytes[i]];
        }
      }
      assert bytes[..|bytes|] == bytes;
    }

    /** fs_load: copies the file to the program address. It reports success only for an empty file. */
    method FsLoad(name: string) returns (ret: int)
      requires Valid()
      modifies this`memory
      ensures memory == Stored(pageDirectories[cr3], newPageTable, old(memory), LOAD_ADDRESS, Image(disk, name))
      ensures ret == 0 || ret == -1
      ensures ret == 0 <==> Lookup(disk, name).Some? && NamesFile(disk, name, Lookup(disk, name).value.inode)
                            && Content(disk, Lookup(disk, name).value.inode) == []
    {
      var dentry := ReadDentryByName(disk, name);
      if dentry == None {
        return -1;
      }
      var n := dentry.value.inode;
      if n >= |disk.inodes| {
        return -1;
      }
      var size := disk.inodes[n].size;
      var scratch := new byte[size](_ => 0);
      var total;
      ret, total := ReadData(disk, n, 0, scratch, 0, size);
      assert scratch[..total] == Image(disk, name);
      StoreBytes(LOAD_ADDRESS, scratch[..total]);
      WholeRead(disk, n);
      if ret != 0 {
        return -1;
      }
    }

    /** setup_new_task and fs_load. */
    method MapAndLoad(slot: nat, name: string)
      requires Valid() && slot < SLOTS
      modifies this`newPageTable, this`pageDirectories, this`cr3, this`memory
      ensures Abs() == Mapped(disk, old(Abs()), slot, name)
    {
      var _ := SetupNewTask(slot);
      var _ := FsLoad(name);
    }

    /** The last writes of execute: the PCBs and the new kernel stack. */
    method EnterStack(slot: nat, filled: seq<Pcb>, ctx: Context)
      modifies this`pcbs, this`kernelStackBottom, this`esp0, this`regs
      ensures Abs() == old(Abs()).(pcbs := filled, stackBottom := StackBottom(slot), esp0 := StackBottom(slot),
                                   regs := ctx)
    {
      pcbs := filled;
      kernelStackBottom := StackBottom(slot);
      esp0 := StackBottom(slot);
      regs := ctx;
    }

    /** execute from setup_new_task on, in the slot it has claimed. */
    method StartProcess(slot: nat, name: string, args: string, esp: Depth, ebp: Depth)
      requires Valid() && slot < SLOTS
      modifies this
      ensures 0 <= SlotOf(Grown(old(esp0), esp, ebp).esp) < SLOTS
      ensures Abs() == Spawned(disk, old(Abs()), slot, name, args, Grown(old(esp0), esp, ebp))
      ensures Valid()
    {
      var ctx := Grown(esp0, esp, ebp);
      MaskFindsPcb(SlotOf(esp0), esp);
      SpawnedWf(disk, Abs(), slot, name, args, ctx);
      OnlyFirstTwo(runningProcesses);
      assert 0 <= SlotOf(ctx.esp) < SLOTS;
      var filled := FillPcb(pcbs, slot, ctx, runningProcesses == 0xC0, args);
      MapAndLoad(slot, name);
      EnterStack(slot, filled, ctx);
    }

    /** execute's claim of a slot. */
    method Claim() returns (slot: nat)
      requires Valid()
      modifies this`runningProcesses, this`current
      ensures slot == FirstFree(old(Abs()).running, 0)
      ensures Abs() == if slot < SLOTS then Claimed(old(Abs()), slot) else old(Abs())
      ensures Valid()
    {
      var mask;
      slot, mask := ClaimSlot(runningProcesses);
      if slot < 8 {
        runningProcesses := mask;
        current := slot;
      }
    }

    /** execute; a return of 0 stands for the jump to `entryPoint`. */
    method ExecuteCommand(command: Option<Command>, junk: FourBytes, junkArgs: string, esp: Depth, ebp: Depth)
      returns (ret: int, entryPoint: seq<byte>)
      requires Valid()
      modifies this
      ensures Abs() == ExecuteNext(disk, old(Abs()), Execute(command, junk, junkArgs, esp, ebp))
      ensures Valid()
      ensures ret == if Executes(disk, old(Abs()), Execute(command, junk, junkArgs, esp, ebp))
                        && FsRead(disk, ProgramName(command.value), ENTRY_POINT_OFFSET, 4).ret != -1 then 0 else -1
      ensures ret == 0 ==> BeginsAt(disk, ProgramName(command.value), entryPoint)
    {
      ret, entryPoint := -1, [];
      var ok, name, args := CheckProgram(disk, command, junk);
      if !ok {
        return;
      }
      if FirstSpace(command.value) == |command.value| {
        args := junkArgs;
      }
      var slot := Claim();
      if slot == 8 {
        return;
      }
      ret, entryPoint := ReadEntryPoint(disk, name);
      if ret == -1 {
        return;
      }
      StartProcess(slot, name, args, esp, ebp);
      ret := 0;
    }

    /** open */
    method OpenFile(name: string) returns (ret: int)
      requires Valid()
      modifies this`pcbs
      ensures Valid() && Abs() == OpenNext(disk, old(Abs()), name) && ret == OpenReturn(disk, old(Abs()), name)
    {
      OpenKeepsWf(disk, Abs(), name);
      var me := SlotOf(kernelStackBottom);
      var fds := pcbs[me].fds;
      if StartsWith(name, "stdin") {
        fds := fds[0 := fds[0].(fops := StdinFops, inUse := true)];
        pcbs := pcbs[me := pcbs[me].(fds := fds)];
        return 0;
      }
      if StartsWith(name, "stdou") {
        fds := fds[1 := fds[1].(fops := StdoutFops, inUse := true)];
        pcbs := pcbs[me := pcbs[me].(fds := fds)];
        return 0;
      }
      var dentry := ReadDentryByName(disk, name);
      if dentry == None {
        return -1;
      }
      var fd := FindFd(fds);
      if fd == 8 {
        return -1;
      }
      fds := fds[fd := fds[fd].(fops := FopsFor(dentry.value.filetype, fds[fd].fops))];
      fds := fds[fd := fds[fd].(inUse := true)];
      fds := fds[fd := fds[fd].(inode := dentry.value.inode)];
      ghost var was := pcbs[me].fds;
      assert fds == was[fd := Fd(FopsFor(dentry.value.filetype, was[fd].fops), dentry.value.inode,
                                 was[fd].position, true)];
      pcbs := pcbs[me := pcbs[me].(fds := fds, names := pcbs[me].names[fd := name])];
      return fd;
    }

    /** The read function of one kind of file, and the stores it makes. */
    method ReadInto(f: Fd, name: string, c: ReadCall) returns (ret: int)
      requires Valid() && Readable(Abs(), c) && f == pcbs[SlotOf(kernelStackBottom)].fds[c.fd]
      requires name == pcbs[SlotOf(kernelStackBottom)].names[c.fd]
      modifies this`dirReads, this`memory
      ensures ret == ReadReply(disk, old(Abs()), c).ret
      ensures memory == Stored(pageDirectories[cr3], newPageTable, old(memory), c.buf,
                               ReadReply(disk, old(Abs()), c).bytes)
      ensures dirReads == if !f.fops.DirFops? then old(dirReads)
                          else if old(dirReads) >= disk.numDentries then 0 else old(dirReads) + 1
    {
      var bytes: seq<byte> := [];
      match f.fops {
        case FileFops =>
          var scratch := new byte[Min(U32(c.nbytes), MAX_BLOCKS * PAGE_SIZE)](_ => 0);
          var total;
          ret, total := FsReadInto(disk, name, U32(f.position), scratch, U32(c.nbytes));
          bytes := scratch[..total];
          assert bytes == FsRead(disk, name, U32(f.position), U32(c.nbytes)).bytes;
        case DirFops =>
          ret, dirReads, bytes := DirRead(disk, dirReads);
        case StdinFops =>
          ret := Max(c.nbytes, 0);
          bytes := c.typed[..Min(|c.typed|, Max(c.nbytes, 0))];
        case _ =>
          ret := 0;
      }
      StoreBytes(c.buf, bytes);
    }

    /** read; what a terminal read delivers comes from the keyboard driver. */
    method ReadFile(c: ReadCall) returns (ret: int)
      requires Valid()
      modifies this`pcbs, this`dirReads, this`memory
      ensures Valid() && Abs() == ReadDone(disk, old(Abs()), c) && ret == ReadReply(disk, old(Abs()), c).ret
    {
      ReadKeepsWf(disk, Abs(), c);
      var me := SlotOf(kernelStackBottom);
      if c.fd < 0 || c.fd > 7 || c.buf == 0 || !pcbs[me].fds[c.fd].inUse {
        return -1;
      }
      var f := pcbs[me].fds[c.fd];
      ret := ReadInto(f, pcbs[me].names[c.fd], c);
      pcbs := pcbs[me := pcbs[me].(fds := pcbs[me].fds[c.fd := f.(position := I32(f.position + ret))])];
    }

    /** close */
    method CloseFile(fd: int) returns (ret: int)
      requires Valid()
      modifies this`pcbs
      ensures Valid() && Abs() == CloseNext(old(Abs()), fd) && ret == CloseReturn(old(Abs()), fd)
    {
      var me := SlotOf(kernelStackBottom);
      if fd < 2 || fd > 7 || !pcbs[me].fds[fd].inUse {
        return -1;
      }
      var fds := pcbs[me].fds[fd := Fd(NoFops, 0, 0, false)];
      pcbs := pcbs[me := pcbs[me].(fds := fds)];
      return 0;
    }

    /** The scan for the process to run next. */
    method NextProcess() returns (next: nat)
      requires Valid()
      ensures next == NextLeaf(Abs(), 1)
    {
      var table := pcbs;
      var blocked := seq(SLOTS, i requires 0 <= i < SLOTS => table[i].hasChild);
      ghost var k;
      next, k := FindNext(runningProcesses, current, blocked);
      ScanFindsNearest(Abs(), 1, k);
    }

    /** pit_interruption */
    method PitInterruption(esp: Depth, ebp: Depth)
      requires Valid()
      modifies this
      ensures Valid() && Abs() == TickNext(old(Abs()), esp, ebp)
    {
      TickKeepsWf(Abs(), esp, ebp);
      var next := NextProcess();
      if current == next {
        return;
      }
      var ctx := Grown(esp0, esp, ebp);
      pcbs := pcbs[current := pcbs[current].(saved := ctx)];
      current := next;
      cr3 := next;
      esp0 := StackBottom(next);
      kernelStackBottom := StackBottom(next);
      regs := pcbs[next].saved;
    }

    /** halt, up to the restart of a root shell, which leaves the table as it is. */
    method HaltProcess()
      requires Valid()
      modifies this
      ensures Valid() && Abs() == HaltNext(old(Abs()))
    {
      HaltKeepsWf(Abs());
      var pcb := pcbs[SlotOf(kernelStackBottom)];
      if pcb.parent == 0 {
        return;
      }
      runningProcesses := ReleaseSlot(runningProcesses, pcb.number);
      current := pcb.parent;
      pcbs := pcbs[pcb.parent := pcbs[pcb.parent].(hasChild := false)];
      cr3 := pcb.parent;
      esp0 := StackBottom(pcb.parent);
      kernelStackBottom := StackBottom(pcb.parent);
      regs := pcb.parentContext;
    }

    /** A user-mode store by the current process. */
    method StoreByte(address: Address, value: byte)
      requires Valid()
      modifies this`memory
      ensures Valid() && Abs() == StoreNext(old(Abs()), address, value)
    {
      var physical := Translate(pageDirectories[cr3], newPageTable, address, true);
      if physical.Some? {
        memory := memory[physical.value := value];
      }
    }

    /** Any entry that does not store over the kernel. */
    method Perform(e: Event)
      requires Valid() && Spares(disk, Abs(), e)
      modifies this
      ensures Valid() && Abs() == Next(disk, old(Abs()), e)
    {
      match e {
        case Execute(command, junk, junkArgs, esp, ebp) =>
          var _, _ := ExecuteCommand(command, junk, junkArgs, esp, ebp);
        case Halt(_) => HaltProcess();
        case Tick(esp, ebp) => PitInterruption(esp, ebp);
        case Open(name) => var _ := OpenFile(name);
        case Read(call, _) => var _ := ReadFile(call);
        case Close(fd) => var _ := CloseFile(fd);
        case Store(address, value) => StoreByte(address, value);
      }
    }

    /** A whole run. */
    method PerformAll(es: seq<Event>)
      requires Valid() && Orderly(disk, Abs(), es)
      modifies this
      ensures Valid() && Abs() == Run(disk, old(Abs()), es)
      decreases |es|
    {
      if es != [] {
        Perform(es[0]);
        PerformAll(es[1..]);
      }
    }

    /** The kernel as the boot loader hands it over. */
    constructor (disk: Disk, ctx: Context)
      requires ValidDisk(disk)
      ensures Valid() && PowerOn(Abs()) && this.disk == disk
    {
      this.disk := disk;
      runningProcesses := 0x80;
      current := 0;
      pcbs := seq(SLOTS, _ => Pcb(seq(8, _ => Fd(NoFops, 0, 0, false)), seq(8, _ => ""), ctx, 0, 0, "", false, 0, ctx));
      kernelStackBottom := StackBottom(0);
      esp0 := StackBottom(0);
      cr3 := 0;
      pageDirectories := seq(SLOTS, _ => seq(TABLE_SIZE, _ => Absent));
      newPageTable := seq(TABLE_SIZE, _ => Pte(false, 0));
      memory := map[];
      dirReads := 0;
      regs := ctx;
      new;
      BootMasks(0x80);
      MaskFindsPcb(0, 0);
    }

    /** One round of bootup's loop. */
    method StartShell(slot: nat, ctx: Context)
      requires Valid() && 0 < slot < SLOTS
      modifies this
      ensures Valid() && Abs() == WithShell(disk, old(Abs()), slot, ctx)
    {
      ShellRound(disk, Abs(), slot, ctx);
      MapAndLoad(slot, "shell");
      var pcb := pcbs[slot].(parentContext := ctx, parent := 0, number := slot);
      pcb := pcb.(fds := ResetFds(pcb.fds), hasChild := false, tty := slot - 1);
      kernelStackBottom := StackBottom(slot);
      esp0 := StackBottom(slot);
      pcb := pcb.(saved := Context(kernelStackBottom - INITIAL_STACK, kernelStackBottom - INITIAL_STACK));
      pcb := pcb.(fds := WithStdio(pcb.fds));
      pcbs := pcbs[slot := pcb];
    }

    /** bootup's loop. */
    method StartShells(ctx: Context)
      requires Valid()
      modifies this
      ensures Valid() && Abs() == ShellsStarted(disk, old(Abs()), ctx)
    {
      ghost var s0 := Abs();
      ShellRound(disk, s0, 3, ctx);
      ghost var s3 := WithShell(disk, s0, 3, ctx);
      ShellRound(disk, s3, 2, ctx);
      ghost var s2 := WithShell(disk, s3, 2, ctx);
      for i := 4 downto 1
        invariant Valid()
        invariant Abs() == if i == 4 then s0 else if i == 3 then s3 else if i == 2 then s2
                           else WithShell(disk, s2, 1, ctx)
      {
        StartShell(i, ctx);
      }
    }

    /** The last writes of bootup. */
    method MarkShells()
      requires Valid()
      modifies this`runningProcesses, this`current
      ensures Valid() && Abs() == old(Abs()).(running := old(Abs()).running + {1, 2, 3}, current := 1)
    {
      BootMasks(runningProcesses);
      runningProcesses := runningProcesses | 0x70;
      current := 1;
    }

    /** bootup; it fails, having changed nothing, only if the shell cannot be read. */
    method Bootup(ctx: Context) returns (ret: int, entryPoint: seq<byte>)
      requires Valid()
      modifies this
      ensures Valid()
      ensures ret == if FsRead(disk, "shell", ENTRY_POINT_OFFSET, 4).ret == -1 then -1 else 0
      ensures Abs() == if ret == -1 then old(Abs()) else Booted(disk, old(Abs()), ctx)
      ensures ret == 0 ==> BeginsAt(disk, "shell", entryPoint)
    {
      ret, entryPoint := ReadEntryPoint(disk, "shell");
      if ret == -1 {
        return;
      }
      StartShells(ctx);
      MarkShells();
      ret := 0;
    }
  }
}

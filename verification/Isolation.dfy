/** Program images never collide: every process's 128 MB region lies in a 4 MB frame of its own,
    so only the process itself can change what it finds there. */
module Isolation {
  import opened Basics
  import opened FileSystem
  import opened SlotMask
  import opened Processes
  import opened Chains
  import opened Runs

  type Offset = n: nat | n < MB4

  /** What process `p` reads at 128 MB + `offset`. */
  function UserByte(s: State, p: nat, offset: Offset): byte
    requires Wf(s) && p < SLOTS
  {
    match Translate(s.dirs[p], s.table, MB128 + offset, true)
    case None => 0
    case Some(physical) => if physical in s.mem then s.mem[physical] else 0
  }

  predicate InFrame(physical: nat, frame: nat) { frame * MB4 <= physical < (frame + 1) * MB4 }

  /** The physical address of `offset` in the program region of slot `p`. */
  function Behind(p: nat, offset: Offset): nat { (p + 1) * MB4 + offset }

  /** The program region of slot `p` is frame `p + 1`, whatever the access. */
  lemma ProgramFrame(dir: Directory, table: Table, p: nat, offset: Offset, user: bool)
    requires MapsTask(dir, p)
    ensures Translate(dir, table, MB128 + offset, user) == Some(Behind(p, offset))
    ensures InFrame(Behind(p, offset), p + 1)
  {
  }

  /** Distinct running processes use distinct frames, none of them the kernel's frame 1. */
  lemma FramesDistinct(s: State, a: Ttys, p: nat, q: nat, x: Offset, y: Offset)
    requires Represents(s, a) && p < SLOTS && q < SLOTS && p != q
    requires p in s.running && p != 0 && q in s.running && q != 0
    ensures var f := Translate(s.dirs[p], s.table, MB128 + x, true);
            var g := Translate(s.dirs[q], s.table, MB128 + y, true);
            f.Some? && g.Some? && f != g && !InFrame(f.value, 1) && !InFrame(g.value, 1)
  {
    assert SlotOk(s, a, p) && SlotOk(s, a, q);
    ProgramFrame(s.dirs[p], s.table, p, x, true);
    ProgramFrame(s.dirs[q], s.table, q, y, true);
  }

  /** A user-mode store lands in the low 4 MB or in the storing process's own frame. */
  lemma StoreStaysHome(dir: Directory, p: nat, address: Address)
    requires MapsTask(dir, p) && Clean(dir)
    ensures var t := Translate(dir, IdentityTable(), address, true);
            t.Some? ==> t.value < MB4 || InFrame(t.value, p + 1)
  {
    TranslatesHome(dir, p, address, true);
  }

  /** Under slot `p`'s directory the byte behind an offset of `p`'s region has that one address. */
  lemma OnlyAddress(p: nat, v: Address, user: bool, offset: Offset)
    requires p >= 1
    ensures Home(p, v, user) == Some(Behind(p, offset)) <==> v == MB128 + offset
  {
  }

  /** Under slot `p`'s directory no address leads to another slot's region. */
  lemma OutOfReach(p: nat, q: nat, v: Address, user: bool, offset: Offset)
    requires q >= 1 && p != q
    ensures Home(p, v, user) != Some(Behind(q, offset))
  {
  }

  // ---- What a sequence of stores does to one byte ----

  /** Two memories agree at one physical address. */
  predicate AgreeAt(m: map<nat, byte>, n: map<nat, byte>, x: nat) {
    (x in n <==> x in m) && (x in m ==> n[x] == m[x])
  }

  lemma {:induction false} StoredElsewhere(dir: Directory, table: Table, mem: map<nat, byte>, at: Address,
                                          bytes: seq<byte>, x: nat)
    requires forall i :: 0 <= i < |bytes| ==> Translate(dir, table, Onward(at, i), false) != Some(x)
    ensures AgreeAt(mem, Stored(dir, table, mem, at, bytes), x)
    decreases |bytes|
  {
    if bytes != [] {
      StoredElsewhere(dir, table, mem, at, bytes[..|bytes| - 1], x);
    }
  }

  lemma {:induction false} StoredHere(dir: Directory, table: Table, mem: map<nat, byte>, at: Address,
                                     bytes: seq<byte>, k: nat, x: nat)
    requires k < |bytes| && Translate(dir, table, Onward(at, k), false) == Some(x)
    requires forall i :: k < i < |bytes| ==> Translate(dir, table, Onward(at, i), false) != Some(x)
    ensures var r := Stored(dir, table, mem, at, bytes);
            x in r && r[x] == bytes[k]
    decreases |bytes|
  {
    var last := |bytes| - 1;
    if k < last {
      StoredHere(dir, table, mem, at, bytes[..last], k, x);
      assert Translate(dir, table, Onward(at, last), false) != Some(x);
    }
  }

  /** The stores reach the address. */
  predicate Covers(at: Address, n: nat, v: Address) {
    exists i :: 0 <= i < n && Onward(at, i) == v
  }

  /** The kernel's stores under slot `p`'s directory leave every other slot's region alone, and in
      `p`'s own change only the addresses they cover. */
  lemma StoresKeep(dir: Directory, mem: map<nat, byte>, at: Address, bytes: seq<byte>, p: nat, q: nat, offset: Offset)
    requires MapsTask(dir, p) && Clean(dir) && p >= 1 && q >= 1
    requires p == q ==> !Covers(at, |bytes|, MB128 + offset)
    ensures AgreeAt(mem, Stored(dir, IdentityTable(), mem, at, bytes), Behind(q, offset))
  {
    forall i | 0 <= i < |bytes|
      ensures Translate(dir, IdentityTable(), Onward(at, i), false) != Some(Behind(q, offset))
    {
      TranslatesHome(dir, p, Onward(at, i), false);
      if p == q {
        OnlyAddress(p, Onward(at, i), false, offset);
      } else {
        OutOfReach(p, q, Onward(at, i), false, offset);
      }
    }
    StoredElsewhere(dir, IdentityTable(), mem, at, bytes, Behind(q, offset));
  }

  /** A byte stored at an address of the slot's own region is found there. */
  lemma StoresReach(dir: Directory, mem: map<nat, byte>, at: Address, bytes: seq<byte>, p: nat, k: nat, offset: Offset)
    requires MapsTask(dir, p) && Clean(dir) && p >= 1 && |bytes| <= 0x1_0000_0000
    requires k < |bytes| && Onward(at, k) == MB128 + offset
    ensures var r := Stored(dir, IdentityTable(), mem, at, bytes);
            Behind(p, offset) in r && r[Behind(p, offset)] == bytes[k]
  {
    forall i | k <= i < |bytes|
      ensures Translate(dir, IdentityTable(), Onward(at, i), false) == Some(Behind(p, offset)) <==> i == k
    {
      TranslatesHome(dir, p, Onward(at, i), false);
      OnlyAddress(p, Onward(at, i), false, offset);
      OnwardInjective(at, k, i);
    }
    StoredHere(dir, IdentityTable(), mem, at, bytes, k, Behind(p, offset));
  }

  lemma OnwardInjective(at: Address, i: nat, j: nat)
    requires i < 0x1_0000_0000 && j < 0x1_0000_0000
    ensures Onward(at, i) == Onward(at, j) <==> i == j
  {
  }

  // ---- A read into a process control block ----

  /** Where a PCB keeps its process number and its parent's, as the compiler lays the structure out:
      eight descriptors of 16 bytes, eight names of 32, and two stack pointers come before them. */
  const NUMBER_OFFSET := 392
  const PARENT_OFFSET := 393

  /** The table's process numbers are the bytes of memory at their addresses. */
  predicate Reflects(r: State, mem: map<nat, byte>)
    requires |r.pcbs| == SLOTS
  {
    forall p :: 0 <= p < SLOTS ==>
      && (PcbAddress(p) + NUMBER_OFFSET in mem ==> r.pcbs[p].number == mem[PcbAddress(p) + NUMBER_OFFSET])
      && (PcbAddress(p) + PARENT_OFFSET in mem ==> r.pcbs[p].parent == mem[PcbAddress(p) + PARENT_OFFSET])
  }

  lemma StoredInKernel(dir: Directory, mem: map<nat, byte>, at: Address, bytes: seq<byte>, p: nat, k: nat)
    requires MapsTask(dir, p) && Clean(dir) && p >= 1 && k < |bytes| <= 0x1_0000_0000
    requires MB4 <= Onward(at, k) < MB8
    ensures var r := Stored(dir, IdentityTable(), mem, at, bytes);
            Onward(at, k) in r && r[Onward(at, k)] == bytes[k]
  {
    forall i | k <= i < |bytes|
      ensures Translate(dir, IdentityTable(), Onward(at, i), false) == Some(Onward(at, k)) <==> i == k
    {
      TranslatesHome(dir, p, Onward(at, i), false);
      OnwardInjective(at, k, i);
    }
    StoredHere(dir, IdentityTable(), mem, at, bytes, k, Onward(at, k));
  }

  lemma ReadStoresInKernel(d: Disk, s: State, a: Ttys, c: ReadCall, k: nat)
    requires ValidDisk(d) && Represents(s, a) && k < |ReadReply(d, s, c).bytes| <= 0x1_0000_0000
    requires MB4 <= Onward(c.buf, k) < MB8
    ensures !KernelSpared(d, s, c)
    ensures var mem := ReadDone(d, s, c).mem;
            Onward(c.buf, k) in mem && mem[Onward(c.buf, k)] == ReadReply(d, s, c).bytes[k]
  {
    assert SlotOk(s, a, Running(a));
    SparedIff(d, s, a, c);
    StoredInKernel(s.dirs[s.cr3], s.mem, c.buf, ReadReply(d, s, c).bytes, s.cr3, k);
  }

  lemma NumbersOfPlace(r: State, a: Ttys, q: nat)
    requires Represents(r, a) && q < SLOTS && a.places[q].At?
    ensures r.pcbs[q].number == q && r.pcbs[q].parent == Below(a, q)
  {
    assert SlotOk(r, a, q);
  }

  /** A read that puts any other value over a running process's number, or over its parent's, leaves a
      table that no longer stands for the stacks, whatever else it leaves. */
  lemma ReadIntoPcbBreaksTable(d: Disk, s: State, a: Ttys, c: ReadCall, q: nat, k: nat, r: State)
    requires ValidDisk(d) && Represents(s, a) && 0 < q < SLOTS && a.places[q].At?
    requires k < |ReadReply(d, s, c).bytes| <= 0x1_0000_0000
    requires var value := ReadReply(d, s, c).bytes[k];
             || (Onward(c.buf, k) == PcbAddress(q) + NUMBER_OFFSET && value != q)
             || (Onward(c.buf, k) == PcbAddress(q) + PARENT_OFFSET && value != Below(a, q))
    requires |r.pcbs| == SLOTS && Reflects(r, ReadDone(d, s, c).mem)
    ensures !KernelSpared(d, s, c) && !Represents(r, a)
  {
    ReadStoresInKernel(d, s, a, c, k);
    var value := ReadReply(d, s, c).bytes[k];
    assert r.pcbs[q].number == value || r.pcbs[q].parent == value;
    if Represents(r, a) {
      NumbersOfPlace(r, a, q);
      assert false;
    }
  }

  // ---- Loading an image ----

  /** Where byte `k` of a program goes in its region. */
  function ImageOffset(k: nat): Offset
    requires LOAD_ADDRESS + k < MB128 + MB4
  {
    LOAD_ADDRESS - MB128 + k
  }

  lemma TaskDirectoryMaps(dir: Directory, slot: nat)
    requires Clean(dir)
    ensures Clean(TaskDirectory(dir, slot)) && MapsTask(TaskDirectory(dir, slot), slot)
  {
  }

  lemma ExecuteMemory(d: Disk, s: State, a: Ttys, e: Event)
    requires ValidDisk(d) && Represents(s, a) && e.Execute? && Executes(d, s, e)
    ensures var slot := FirstFree(s.running, 0);
            var r := ExecuteNext(d, s, e);
            && r.current == slot && 0 < slot < SLOTS && Clean(r.dirs[slot]) && MapsTask(r.dirs[slot], slot)
            && r.table == IdentityTable()
            && r.mem == Stored(r.dirs[slot], IdentityTable(), s.mem, LOAD_ADDRESS,
                               Image(d, ProgramName(e.command.value)))
  {
    ExecuteEnters(d, s, a, e);
    var slot := FirstFree(s.running, 0);
    CallerFound(s, a, e.esp);
    TaskDirectoryMaps(s.dirs[slot], slot);
  }

  /** What fs_load copies is the file up to its first block that cannot be read: the whole file
      exactly when every block that holds it can be. */
  lemma ImageIsFile(d: Disk, name: string, n: nat)
    requires ValidDisk(d) && NamesFile(d, name, n)
    ensures Image(d, name) <= Content(d, n)
    ensures Image(d, name) == Content(d, n) <==> DataBlocksOk(d, n)
    ensures forall m :: 0 < m <= |Content(d, n)| ==> (m <= |Image(d, name)| <==> BlocksBelow(d, n, m))
  {
    WholeRead(d, n);
  }

  /** Whatever execute runs is a file of the disk. */
  lemma ExecutedNamesFile(d: Disk, s: State, e: Event) returns (n: nat)
    requires ValidDisk(d) && Wf(s) && e.Execute? && Executes(d, s, e)
    ensures NamesFile(d, ProgramName(e.command.value), n)
  {
    n := Lookup(d, ProgramName(e.command.value)).value.inode;
  }

  lemma LoadReaches(n: nat, k: nat)
    requires n <= MAX_BLOCKS * PAGE_SIZE && LOAD_ADDRESS + k < MB128 + MB4
    ensures Onward(LOAD_ADDRESS, k) == MB128 + ImageOffset(k)
    ensures Covers(LOAD_ADDRESS, n, MB128 + ImageOffset(k)) ==> k < n
  {
    if Covers(LOAD_ADDRESS, n, MB128 + ImageOffset(k)) {
      var i :| 0 <= i < n && Onward(LOAD_ADDRESS, i) == MB128 + ImageOffset(k);
      OnwardInjective(LOAD_ADDRESS, i, k);
    }
  }

  lemma ByteLoaded(r: State, slot: nat, mem: map<nat, byte>, bytes: seq<byte>, k: nat)
    requires Wf(r) && 0 < slot < SLOTS && Clean(r.dirs[slot]) && MapsTask(r.dirs[slot], slot)
    requires |bytes| <= MAX_BLOCKS * PAGE_SIZE && LOAD_ADDRESS + k < MB128 + MB4
    requires r.mem == Stored(r.dirs[slot], IdentityTable(), mem, LOAD_ADDRESS, bytes)
    ensures k < |bytes| ==> UserByte(r, slot, ImageOffset(k)) == bytes[k]
    ensures k >= |bytes| ==> AgreeAt(mem, r.mem, Behind(slot, ImageOffset(k)))
  {
    var offset := ImageOffset(k);
    LoadReaches(|bytes|, k);
    if k < |bytes| {
      ProgramFrame(r.dirs[slot], r.table, slot, offset, true);
      StoresReach(r.dirs[slot], mem, LOAD_ADDRESS, bytes, slot, k, offset);
    } else {
      StoresKeep(r.dirs[slot], mem, LOAD_ADDRESS, bytes, slot, slot, offset);
    }
  }

  /** execute puts the file's bytes at the program address of the new process, up to the first block
      that cannot be read. From there on the process finds what its frame held before: execute does
      not notice. */
  lemma ImageLoaded(d: Disk, s: State, a: Ttys, e: Event, n: nat, k: nat)
    requires ValidDisk(d) && Represents(s, a) && e.Execute? && Executes(d, s, e)
    requires NamesFile(d, ProgramName(e.command.value), n)
    requires k < |Content(d, n)| && LOAD_ADDRESS + k < MB128 + MB4
    ensures var r := ExecuteNext(d, s, e);
            && Wf(r)
            && (BlocksBelow(d, n, k + 1) ==> UserByte(r, r.current, ImageOffset(k)) == Content(d, n)[k])
            && (!BlocksBelow(d, n, k + 1) ==> AgreeAt(s.mem, r.mem, Behind(r.current, ImageOffset(k))))
  {
    var name := ProgramName(e.command.value);
    ExecuteKeepsWf(d, s, e);
    ExecuteMemory(d, s, a, e);
    ImageIsFile(d, name, n);
    ByteLoaded(ExecuteNext(d, s, e), FirstFree(s.running, 0), s.mem, Image(d, name), k);
  }

  // ---- Nobody else writes there ----

  /** Slot `p` has the same directory, and the same physical byte behind `offset`. */
  predicate SameBehind(s: State, r: State, p: nat, offset: Offset)
    requires Wf(s) && Wf(r) && p < SLOTS
  {
    r.dirs[p] == s.dirs[p] && MapsTask(s.dirs[p], p) && AgreeAt(s.mem, r.mem, Behind(p, offset))
  }

  lemma SameByte(s: State, r: State, p: nat, offset: Offset)
    requires Wf(s) && Wf(r) && p < SLOTS && SameBehind(s, r, p, offset)
    ensures UserByte(r, p, offset) == UserByte(s, p, offset)
  {
  }

  /** Loading a new program writes only the new slot's frame. */
  lemma ExecuteKeepsBehind(d: Disk, s: State, a: Ttys, e: Event, p: nat, offset: Offset)
    requires ValidDisk(d) && Represents(s, a) && 0 < p < SLOTS && a.places[p].At? && e.Execute?
    ensures Wf(ExecuteNext(d, s, e)) && SameBehind(s, ExecuteNext(d, s, e), p, offset)
  {
    assert SlotOk(s, a, p) && p in s.running;
    ExecuteKeepsWf(d, s, e);
    if Executes(d, s, e) {
      ExecuteMemory(d, s, a, e);
      ExecuteEnters(d, s, a, e);
      var slot, r := FirstFree(s.running, 0), ExecuteNext(d, s, e);
      StoresKeep(r.dirs[slot], s.mem, LOAD_ADDRESS, Image(d, ProgramName(e.command.value)), slot, p, offset);
    }
  }

  /** The step is a store of `p` to that very byte, or a read of `p` into a buffer that covers it. */
  predicate Overwrites(d: Disk, s: State, e: Event, p: nat, offset: Offset)
    requires ValidDisk(d) && Wf(s)
  {
    s.current == p &&
    match e
    case Store(address, _) => address == MB128 + offset
    case Read(call, _) => Covers(call.buf, |ReadReply(d, s, call).bytes|, MB128 + offset)
    case _ => false
  }

  lemma StoreKeepsBehind(d: Disk, s: State, a: Ttys, e: Event, p: nat, offset: Offset)
    requires ValidDisk(d) && Represents(s, a) && 0 < p < SLOTS && a.places[p].At?
    requires e.Store? && !Overwrites(d, s, e, p, offset)
    ensures Wf(StoreNext(s, e.address, e.value)) && SameBehind(s, StoreNext(s, e.address, e.value), p, offset)
  {
    assert SlotOk(s, a, p) && SlotOk(s, a, Running(a));
    TranslatesHome(s.dirs[s.cr3], s.cr3, e.address, true);
    if p == s.current {
      OnlyAddress(p, e.address, true, offset);
    } else {
      OutOfReach(s.cr3, p, e.address, true, offset);
    }
  }

  lemma ReadKeepsBehind(d: Disk, s: State, a: Ttys, c: ReadCall, p: nat, offset: Offset)
    requires ValidDisk(d) && Represents(s, a) && 0 < p < SLOTS && a.places[p].At?
    requires s.current == p ==> !Covers(c.buf, |ReadReply(d, s, c).bytes|, MB128 + offset)
    ensures Wf(ReadDone(d, s, c)) && SameBehind(s, ReadDone(d, s, c), p, offset)
  {
    assert SlotOk(s, a, p) && SlotOk(s, a, Running(a));
    ReadKeepsWf(d, s, c);
    StoresKeep(s.dirs[s.cr3], s.mem, c.buf, ReadReply(d, s, c).bytes, s.cr3, p, offset);
  }

  /** The bytes a read delivers into the caller's own region are found there. */
  lemma ReadDelivers(d: Disk, s: State, a: Ttys, c: ReadCall, k: nat, offset: Offset)
    requires ValidDisk(d) && Represents(s, a) && |ReadReply(d, s, c).bytes| <= 0x1_0000_0000
    requires k < |ReadReply(d, s, c).bytes| && Onward(c.buf, k) == MB128 + offset
    ensures Wf(ReadDone(d, s, c)) && UserByte(ReadDone(d, s, c), s.current, offset) == ReadReply(d, s, c).bytes[k]
  {
    assert SlotOk(s, a, Running(a));
    MeIsRunning(s, a);
    ReadKeepsWf(d, s, c);
    StoresReach(s.dirs[s.cr3], s.mem, c.buf, ReadReply(d, s, c).bytes, s.cr3, k, offset);
    ProgramFrame(s.dirs[s.cr3], s.table, s.cr3, offset, true);
  }

  /** A step changes a byte of a running process's program region only if it is that process's own
      store to the byte, or its own read into a buffer that covers the byte. */
  lemma StepKeepsImage(d: Disk, s: State, a: Ttys, e: Event, p: nat, offset: Offset)
    requires ValidDisk(d) && Represents(s, a) && Spares(d, s, e) && 0 < p < SLOTS && a.places[p].At?
    requires !Overwrites(d, s, e, p, offset)
    ensures Wf(Next(d, s, e)) && UserByte(Next(d, s, e), p, offset) == UserByte(s, p, offset)
  {
    assert SlotOk(s, a, p);
    NextKeepsWf(d, s, e);
    match e
    case Execute(_, _, _, _, _) =>
      ExecuteKeepsBehind(d, s, a, e, p, offset);
      SameByte(s, ExecuteNext(d, s, e), p, offset);
    case Halt(_) => SameByte(s, HaltNext(s), p, offset);
    case Tick(esp, ebp) => SameByte(s, TickNext(s, esp, ebp), p, offset);
    case Open(name) => SameByte(s, OpenNext(d, s, name), p, offset);
    case Read(call, _) => ReadKeepsBehind(d, s, a, call, p, offset); SameByte(s, ReadDone(d, s, call), p, offset);
    case Close(fd) => SameByte(s, CloseNext(s, fd), p, offset);
    case Store(address, value) =>
      StoreKeepsBehind(d, s, a, e, p, offset);
      SameByte(s, StoreNext(s, address, value), p, offset);
  }

  /** Along the run `p` stays in the table and does not itself overwrite the byte. */
  predicate LeavesAlone(d: Disk, s: State, a: Ttys, es: seq<Event>, p: nat, offset: Offset)
    requires ValidDisk(d) && Wf(s) && Shape(a) && p < SLOTS
    decreases |es|
  {
    es != [] ==>
      && a.places[p].At? && !Overwrites(d, s, es[0], p, offset)
      && (NextKeepsWf(d, s, es[0]); StepKeepsShape(d, a, es[0]);
          LeavesAlone(d, Next(d, s, es[0]), Step(d, a, es[0]), es[1..], p, offset))
  }

  /** A byte of a live process's region survives every run in which the process does not itself
      overwrite it, whatever any process executes, halts, reads or stores. */
  lemma {:induction false} ImageSurvives(d: Disk, s: State, a: Ttys, es: seq<Event>, p: nat, offset: Offset)
    requires ValidDisk(d) && Represents(s, a) && Orderly(d, s, es) && 0 < p < SLOTS
    requires LeavesAlone(d, s, a, es, p, offset)
    ensures UserByte(Run(d, s, es), p, offset) == UserByte(s, p, offset)
    decreases |es|
  {
    if es != [] {
      Simulates(d, s, a, es[0]);
      StepKeepsImage(d, s, a, es[0], p, offset);
      ImageSurvives(d, Next(d, s, es[0]), Step(d, a, es[0]), es[1..], p, offset);
    }
  }

  lemma LoadedState(d: Disk, s: State, a: Ttys, e: Event, n: nat, k: nat, r: State, b: Ttys)
    requires ValidDisk(d) && Represents(s, a) && e.Execute? && Executes(d, s, e)
    requires NamesFile(d, ProgramName(e.command.value), n)
    requires k < |Content(d, n)| && LOAD_ADDRESS + k < MB128 + MB4 && BlocksBelow(d, n, k + 1)
    requires r == ExecuteNext(d, s, e) && b == Step(d, a, e)
    ensures Represents(r, b) && UserByte(r, r.current, ImageOffset(k)) == Content(d, n)[k]
  {
    ImageLoaded(d, s, a, e, n, k);
    ExecuteSimulates(d, s, a, e);
  }

  lemma SurvivesFrom(d: Disk, r: State, b: Ttys, es: seq<Event>, offset: Offset, value: byte)
    requires ValidDisk(d) && Represents(r, b) && Orderly(d, r, es) && LeavesAlone(d, r, b, es, r.current, offset)
    requires UserByte(r, r.current, offset) == value
    ensures UserByte(Run(d, r, es), r.current, offset) == value
  {
    ImageSurvives(d, r, b, es, r.current, offset);
  }

  /** From its execute on, a program finds each byte of its file in place until it overwrites that
      byte itself. */
  lemma ProgramStaysLoaded(d: Disk, s: State, a: Ttys, e: Event, es: seq<Event>, n: nat, k: nat)
    requires ValidDisk(d) && Represents(s, a) && e.Execute? && Executes(d, s, e)
    requires NamesFile(d, ProgramName(e.command.value), n)
    requires k < |Content(d, n)| && LOAD_ADDRESS + k < MB128 + MB4 && BlocksBelow(d, n, k + 1)
    requires (ExecuteKeepsWf(d, s, e); Orderly(d, ExecuteNext(d, s, e), es))
    requires (StepKeepsShape(d, a, e);
              var r := ExecuteNext(d, s, e); LeavesAlone(d, r, Step(d, a, e), es, r.current, ImageOffset(k)))
    ensures var r := ExecuteNext(d, s, e);
            UserByte(Run(d, r, es), r.current, ImageOffset(k)) == Content(d, n)[k]
  {
    var r, b := ExecuteNext(d, s, e), Step(d, a, e);
    LoadedState(d, s, a, e, n, k, r, b);
    SurvivesFrom(d, r, b, es, ImageOffset(k), Content(d, n)[k]);
  }
}

/** The machine the process table stands for: one stack of processes per tty, and the tty that
    holds the processor. `Represents` ties a process table to it; the lemmas show that every
    kernel entry acts on the table as the corresponding stack operation. */
module Chains {
  import opened Basics
  import opened FileSystem
  import opened SlotMask
  import opened Processes

  const TTYS := 3

  /** Where a slot's process sits: at some depth of a tty's stack, or nowhere. */
  datatype Place = Free | At(tty: nat, depth: nat)

  /** The stacks, the inverse index from slots to places, and the tty being run. */
  datatype Ttys = Ttys(stacks: seq<seq<nat>>, places: seq<Place>, active: nat)

  predicate Placed(a: Ttys, p: nat)
    requires |a.places| == SLOTS && |a.stacks| == TTYS && p < SLOTS
  {
    a.places[p].At? ==>
      && a.places[p].tty < TTYS && a.places[p].depth < |a.stacks[a.places[p].tty]|
      && a.stacks[a.places[p].tty][a.places[p].depth] == p
  }

  predicate Indexed(a: Ttys, t: nat)
    requires |a.places| == SLOTS && |a.stacks| == TTYS && t < TTYS
  {
    && |a.stacks[t]| > 0 && a.stacks[t][0] == t + 1
    && forall k :: 0 <= k < |a.stacks[t]| ==> 1 <= a.stacks[t][k] < SLOTS && a.places[a.stacks[t][k]] == At(t, k)
  }

  /** Three non-empty stacks rooted at slots 1, 2 and 3, with no slot in two places. */
  predicate Shape(a: Ttys) {
    && |a.stacks| == TTYS && |a.places| == SLOTS && a.active < TTYS
    && a.places[0] == Free
    && (forall p :: 0 <= p < SLOTS ==> Placed(a, p))
    && (forall t :: 0 <= t < TTYS ==> Indexed(a, t))
  }

  /** Slot 0 stands for "no process" and is always marked running. */
  function Used(a: Ttys): set<nat>
    requires |a.places| == SLOTS
  {
    set p: nat | p < SLOTS && (p == 0 || a.places[p].At?)
  }

  function Top(a: Ttys, t: nat): (p: nat)
    requires Shape(a) && t < TTYS
    ensures 1 <= p < SLOTS && a.places[p] == At(t, |a.stacks[t]| - 1)
  {
    assert Indexed(a, t);
    a.stacks[t][|a.stacks[t]| - 1]
  }

  function Running(a: Ttys): (p: nat)
    requires Shape(a)
    ensures 1 <= p < SLOTS && p == Top(a, a.active)
  {
    Top(a, a.active)
  }

  // ---- Its steps ----

  function Pushed(a: Ttys, slot: nat): Ttys
    requires Shape(a) && slot < SLOTS
  {
    var stack := a.stacks[a.active];
    Ttys(a.stacks[a.active := stack + [slot]], a.places[slot := At(a.active, |stack|)], a.active)
  }

  function Popped(a: Ttys): Ttys
    requires Shape(a)
  {
    var stack := a.stacks[a.active];
    if |stack| <= 1 then a
    else Ttys(a.stacks[a.active := stack[..|stack| - 1]], a.places[Running(a) := Free], a.active)
  }

  /** How many slots after `p` the slot `q` comes, in cyclic slot order. */
  function Ahead(p: nat, q: nat): nat
    requires p < SLOTS && q < SLOTS
  {
    if p <= q then q - p else q + SLOTS - p
  }

  /** The tty whose top process comes next after the running one. */
  function NextTty(a: Ttys): (r: nat)
    requires Shape(a)
    ensures r < TTYS && r != a.active
  {
    var u, v := (a.active + 1) % TTYS, (a.active + 2) % TTYS;
    if Ahead(Running(a), Top(a, u)) < Ahead(Running(a), Top(a, v)) then u else v
  }

  function Step(d: Disk, a: Ttys, e: Event): Ttys
    requires ValidDisk(d) && Shape(a)
  {
    match e
    case Execute(command, junk, _, _, _) =>
      var slot := FirstFree(Used(a), 0);
      if Loadable(d, command, junk) && slot < SLOTS then Pushed(a, slot) else a
    case Halt(_) => Popped(a)
    case Tick(_, _) => a.(active := NextTty(a))
    case _ => a
  }

  // ---- The relation ----

  predicate FdsOk(fds: seq<Fd>) {
    && |fds| == 8 && fds[0].inUse && fds[1].inUse
    && forall i :: 0 <= i < 8 && !fds[i].inUse ==> fds[i].position == 0
  }

  /** Only the low table, the kernel page and the program page are ever present. */
  predicate Clean(dir: Directory) {
    forall i :: 0 <= i < TABLE_SIZE && i != 0 && i != 1 && i != PROGRAM_ENTRY ==> dir[i] == Absent
  }

  predicate MapsTask(dir: Directory, slot: nat) {
    dir[0] == LowTable(true) && dir[1] == Page4MB(false, 1) && dir[PROGRAM_ENTRY] == Page4MB(true, slot + 1)
  }

  /** The slot below a placed slot in its stack, 0 for a root. */
  function Below(a: Ttys, p: nat): (q: nat)
    requires Shape(a) && p < SLOTS && a.places[p].At?
    ensures q < SLOTS
    ensures a.places[p].depth == 0 ==> q == 0
    ensures a.places[p].depth > 0 ==> q > 0 && a.places[q] == At(a.places[p].tty, a.places[p].depth - 1)
  {
    assert Placed(a, p);
    assert Indexed(a, a.places[p].tty);
    var At(t, k) := a.places[p];
    if k == 0 then 0 else a.stacks[t][k - 1]
  }

  /** The PCB and page directory of a slot say what its place in the stacks says. */
  predicate SlotOk(s: State, a: Ttys, p: nat)
    requires Wf(s) && Shape(a) && p < SLOTS
  {
    var pcb := s.pcbs[p];
    match a.places[p]
    case Free => p != 0 ==> !pcb.hasChild
    case At(t, k) =>
      assert Placed(a, p);
      && pcb.number == p && pcb.tty == t
      && pcb.parent == Below(a, p)
      && pcb.hasChild == (k < |a.stacks[t]| - 1)
      && (k > 0 ==> InStack(pcb.parentContext, Below(a, p)))
      && (k == |a.stacks[t]| - 1 && t != a.active ==> InStack(pcb.saved, p))
      && FdsOk(pcb.fds)
      && MapsTask(s.dirs[p], p)
  }

  /** The processor's view: everything that names a process names the running one. */
  predicate Coherent(s: State, slot: nat) {
    s.current == slot && s.stackBottom == StackBottom(slot) && s.esp0 == StackBottom(slot) && s.cr3 == slot
  }

  predicate Represents(s: State, a: Ttys) {
    && Wf(s) && Shape(a)
    && s.running == Used(a)
    && (forall p :: 0 <= p < SLOTS ==> SlotOk(s, a, p))
    && (forall p :: 0 <= p < SLOTS ==> Clean(s.dirs[p]))
    && s.table == IdentityTable()
    && Coherent(s, Running(a))
  }

  // ---- Facts about the relation ----

  /** Where an address leads under the page directory of slot `p`. */
  function Home(p: nat, v: Address, user: bool): Option<nat> {
    if PAGE_SIZE <= v < MB4 then Some(v)
    else if MB4 <= v < MB8 then if user then None else Some(v)
    else if MB128 <= v < MB128 + MB4 then Some((p + 1) * MB4 + (v - MB128))
    else None
  }

  lemma TranslatesHome(dir: Directory, p: nat, v: Address, user: bool)
    requires MapsTask(dir, p) && Clean(dir)
    ensures Translate(dir, IdentityTable(), v, user) == Home(p, v, user)
  {
  }

  lemma SparedIff(d: Disk, s: State, a: Ttys, c: ReadCall)
    requires ValidDisk(d) && Represents(s, a)
    ensures KernelSpared(d, s, c) <==>
            forall i :: 0 <= i < |ReadReply(d, s, c).bytes| ==> !(MB4 <= Onward(c.buf, i) < MB8)
  {
    assert SlotOk(s, a, Running(a));
    forall i | 0 <= i < |ReadReply(d, s, c).bytes|
      ensures InKernel(Translate(s.dirs[s.cr3], s.table, Onward(c.buf, i), false)) <==> MB4 <= Onward(c.buf, i) < MB8
    {
      TranslatesHome(s.dirs[s.cr3], s.cr3, Onward(c.buf, i), false);
    }
  }

  lemma MeIsRunning(s: State, a: Ttys)
    requires Represents(s, a)
    ensures Me(s) == s.current == Running(a)
  {
  }

  /** The leaves are exactly the three tops. */
  lemma LeavesAreTops(s: State, a: Ttys, p: nat)
    requires Represents(s, a) && p < SLOTS
    ensures Leaf(s, p) <==> exists t :: 0 <= t < TTYS && p == Top(a, t)
  {
    assert SlotOk(s, a, p) && Placed(a, p);
    if Leaf(s, p) {
      assert p == Top(a, a.places[p].tty);
    }
  }

  // ---- Simulation, entry by entry ----

  lemma PushShape(a: Ttys, slot: nat)
    requires Shape(a) && 0 < slot < SLOTS && slot !in Used(a)
    ensures Shape(Pushed(a, slot)) && Used(Pushed(a, slot)) == Used(a) + {slot}
  {
    var b := Pushed(a, slot);
    forall p | 0 <= p < SLOTS ensures Placed(b, p) { assert Placed(a, p); }
    forall t | 0 <= t < TTYS ensures Indexed(b, t) { assert Indexed(a, t); }
  }

  lemma PopShape(a: Ttys)
    requires Shape(a) && |a.stacks[a.active]| > 1
    ensures Shape(Popped(a)) && Used(Popped(a)) == Used(a) - {Running(a)}
  {
    var b := Popped(a);
    forall p | 0 <= p < SLOTS ensures Placed(b, p) { assert Placed(a, p); }
    forall t | 0 <= t < TTYS ensures Indexed(b, t) { assert Indexed(a, t); }
  }

  /** A new process entered in the table as a child of the running one is a push. */
  lemma SpawnIsPush(s: State, a: Ttys, slot: nat, r: State, ctx: Context)
    requires Represents(s, a)
    requires 0 < slot < SLOTS && slot !in s.running && Wf(Claimed(s, slot))
    requires Enters(Claimed(s, slot), r, slot, Running(a), ctx) && InStack(ctx, Running(a))
    ensures Represents(r, Pushed(a, slot))
  {
    PushShape(a, slot);
    var b := Pushed(a, slot);
    assert SlotOk(s, a, Running(a));
    forall p | 0 <= p < SLOTS ensures SlotOk(r, b, p) {
      assert SlotOk(s, a, p) && Placed(a, p) && Placed(b, p);
    }
  }

  /** Masking the stack pointer of the calling process finds its own PCB. */
  lemma CallerFound(s: State, a: Ttys, esp: Depth)
    requires Represents(s, a)
    ensures SlotOf(s.esp0 - esp) == Running(a) && Running(a) in s.running
  {
  }

  lemma ClaimedWf(s: State, a: Ttys, slot: nat)
    requires Represents(s, a) && slot < SLOTS && slot !in s.running
    ensures slot > 0 && Wf(Claimed(s, slot)) && Claimed(s, slot).running != {0, 1}
  {
    assert 2 in s.running by { assert Indexed(a, 1); }
    assert 2 !in {0, 1};
  }

  lemma ClaimMayEnter(s: State, a: Ttys, slot: nat, esp: Depth, ebp: Depth)
    requires Represents(s, a) && slot < SLOTS && slot !in s.running
    ensures MayEnter(Claimed(s, slot), slot, Running(a), Grown(s.esp0, esp, ebp))
  {
    ClaimedWf(s, a, slot);
    CallerFound(s, a, esp);
  }

  lemma ExecuteIsSpawn(d: Disk, s: State, e: Event, slot: nat, name: string)
    requires ValidDisk(d) && Wf(s) && e.Execute? && Executes(d, s, e) && slot == FirstFree(s.running, 0)
    requires name == ProgramName(e.command.value) && FsRead(d, name, ENTRY_POINT_OFFSET, 4).ret != -1
    requires Wf(Claimed(s, slot))
    ensures 0 <= SlotOf(Grown(s.esp0, e.esp, e.ebp).esp) < SLOTS
    ensures ExecuteNext(d, s, e)
            == Spawned(d, Claimed(s, slot), slot, name, ArgumentsFor(e), Grown(s.esp0, e.esp, e.ebp))
  {
    MaskFindsPcb(SlotOf(s.esp0), e.esp);
  }

  /** A command that passes the checks always runs to the end of execute: it enters a process. */
  lemma ExecuteEnters(d: Disk, s: State, a: Ttys, e: Event)
    requires ValidDisk(d) && Represents(s, a) && e.Execute? && Executes(d, s, e)
    ensures var slot := FirstFree(s.running, 0);
            && 0 < slot && Wf(Claimed(s, slot)) && Claimed(s, slot).running != {0, 1}
            && FsRead(d, ProgramName(e.command.value), ENTRY_POINT_OFFSET, 4).ret != -1
            && Entered(Claimed(s, slot), ExecuteNext(d, s, e), slot, Running(a), Grown(s.esp0, e.esp, e.ebp))
  {
    var slot := FirstFree(s.running, 0);
    var name := ProgramName(e.command.value);
    EntryReadSucceeds(d, name);
    ClaimedWf(s, a, slot);
    ClaimMayEnter(s, a, slot, e.esp, e.ebp);
    ExecuteIsSpawn(d, s, e, slot, name);
    SpawnEnters(d, Claimed(s, slot), slot, name, ArgumentsFor(e), Grown(s.esp0, e.esp, e.ebp), Running(a));
  }

  lemma ExecuteSimulates(d: Disk, s: State, a: Ttys, e: Event)
    requires ValidDisk(d) && Represents(s, a) && e.Execute?
    ensures Represents(ExecuteNext(d, s, e), Step(d, a, e))
  {
    if Executes(d, s, e) {
      ExecuteEnters(d, s, a, e);
      SpawnIsPush(s, a, FirstFree(s.running, 0), ExecuteNext(d, s, e), Grown(s.esp0, e.esp, e.ebp));
    }
  }

  /** A process that leaves the table and hands back to its parent is a pop. */
  lemma HandBackIsPop(s: State, a: Ttys, r: State)
    requires Represents(s, a) && |a.stacks[a.active]| > 1 && Wf(r)
    requires r.running == s.running - {Running(a)}
    requires var parent := Below(a, Running(a));
             && r.pcbs[parent] == s.pcbs[parent].(hasChild := false) && Coherent(r, parent)
             && forall p :: 0 <= p < SLOTS && p != parent ==> r.pcbs[p] == s.pcbs[p]
    requires r.dirs == s.dirs && r.table == s.table
    ensures Represents(r, Popped(a))
  {
    PopShape(a);
    var b := Popped(a);
    forall p | 0 <= p < SLOTS ensures SlotOk(r, b, p) {
      assert SlotOk(s, a, p) && Placed(a, p) && Placed(b, p);
    }
  }

  lemma HaltSimulates(s: State, a: Ttys)
    requires Represents(s, a)
    ensures Represents(HaltNext(s), Popped(a))
  {
    MeIsRunning(s, a);
    assert SlotOk(s, a, Running(a));
    if |a.stacks[a.active]| > 1 {
      var parent := Below(a, Running(a));
      assert Indexed(a, a.active);
      MaskFindsPcb(parent, 0);
      HandBackIsPop(s, a, HaltNext(s));
    }
  }

  lemma AfterAhead(p: nat, q: nat, j: nat)
    requires p < SLOTS && q < SLOTS && j < SLOTS
    ensures After(p, Ahead(p, q)) == q && Ahead(p, After(p, j)) == j
    ensures Ahead(p, q) == 0 <==> p == q
  {
  }

  lemma NextTtyIsNearest(a: Ttys, t: nat)
    requires Shape(a) && t < TTYS && t != a.active
    ensures Ahead(Running(a), Top(a, NextTty(a))) <= Ahead(Running(a), Top(a, t))
  {
  }

  /** The timer picks the top of the next tty. */
  lemma NextLeafIsNextTop(s: State, a: Ttys)
    requires Represents(s, a)
    ensures NextLeaf(s, 1) == Top(a, NextTty(a))
  {
    var c, next := s.current, Top(a, NextTty(a));
    var m := Ahead(c, next);
    AfterAhead(c, next, 0);
    LeavesAreTops(s, a, next);
    forall j | 1 <= j < m
      ensures !Leaf(s, After(c, j))
    {
      var q := After(c, j);
      AfterAhead(c, q, j);
      LeavesAreTops(s, a, q);
      if t :| 0 <= t < TTYS && q == Top(a, t) {
        if t != a.active {
          NextTtyIsNearest(a, t);
        }
      }
    }
    ScanFindsNearest(s, 1, m);
  }

  /** Saving the running process's context and loading another top's is a change of tty. */
  lemma SwitchIsTurn(s: State, a: Ttys, t: nat, r: State, ctx: Context)
    requires Represents(s, a) && t < TTYS && InStack(ctx, s.current)
    requires Wf(r) && r.running == s.running && r.dirs == s.dirs && r.table == s.table
    requires r.pcbs == s.pcbs[s.current := s.pcbs[s.current].(saved := ctx)]
    requires Coherent(r, Top(a, t))
    ensures Represents(r, a.(active := t))
  {
    var b := a.(active := t);
    forall p | 0 <= p < SLOTS ensures Placed(b, p) { assert Placed(a, p); }
    forall u | 0 <= u < TTYS ensures Indexed(b, u) { assert Indexed(a, u); }
    forall p | 0 <= p < SLOTS ensures SlotOk(r, b, p) {
      assert SlotOk(s, a, p) && Placed(a, p);
    }
  }

  lemma TickForm(s: State, a: Ttys, esp: Depth, ebp: Depth)
    requires Represents(s, a)
    ensures var r, next, ctx := TickNext(s, esp, ebp), Top(a, NextTty(a)), Grown(s.esp0, esp, ebp);
            && r == s.(current := next, pcbs := s.pcbs[s.current := s.pcbs[s.current].(saved := ctx)], cr3 := next,
                       stackBottom := StackBottom(next), esp0 := StackBottom(next), regs := r.regs)
            && InStack(ctx, s.current)
  {
    NextLeafIsNextTop(s, a);
  }

  lemma SwitchedWf(s: State, r: State, next: nat, ctx: Context)
    requires Wf(s) && next < SLOTS
    requires r == s.(current := next, pcbs := s.pcbs[s.current := s.pcbs[s.current].(saved := ctx)], cr3 := next,
                     stackBottom := StackBottom(next), esp0 := StackBottom(next), regs := r.regs)
    ensures Wf(r)
  {
    MaskFindsPcb(next, 0);
  }

  lemma TickSimulates(s: State, a: Ttys, esp: Depth, ebp: Depth)
    requires Represents(s, a)
    ensures Represents(TickNext(s, esp, ebp), a.(active := NextTty(a)))
  {
    var r, next, ctx := TickNext(s, esp, ebp), Top(a, NextTty(a)), Grown(s.esp0, esp, ebp);
    TickForm(s, a, esp, ebp);
    SwitchedWf(s, r, next, ctx);
    SwitchIsTurn(s, a, NextTty(a), r, ctx);
  }

  /** An entry that touches only one process's descriptors, names and memory moves nothing. */
  lemma DescriptorsOnly(s: State, a: Ttys, r: State, fds: seq<Fd>, names: seq<string>)
    requires Represents(s, a) && FdsOk(fds) && |names| == 8
    requires r == s.(pcbs := s.pcbs[Me(s) := s.pcbs[Me(s)].(fds := fds, names := names)],
                    mem := r.mem, dirReads := r.dirReads)
    ensures Represents(r, a)
  {
    forall p | 0 <= p < SLOTS ensures SlotOk(r, a, p) {
      assert SlotOk(s, a, p);
    }
  }

  lemma OpenSimulates(d: Disk, s: State, a: Ttys, name: string)
    requires ValidDisk(d) && Represents(s, a)
    ensures Represents(OpenNext(d, s, name), a)
  {
    var r, me := OpenNext(d, s, name), Me(s);
    MeIsRunning(s, a);
    assert SlotOk(s, a, me);
    DescriptorsOnly(s, a, r, r.pcbs[me].fds, r.pcbs[me].names);
  }

  lemma ReadSimulates(d: Disk, s: State, a: Ttys, c: ReadCall)
    requires ValidDisk(d) && Represents(s, a)
    ensures Represents(ReadDone(d, s, c), a)
  {
    var r, me := ReadDone(d, s, c), Me(s);
    MeIsRunning(s, a);
    assert SlotOk(s, a, me);
    DescriptorsOnly(s, a, r, r.pcbs[me].fds, r.pcbs[me].names);
  }

  /** A read leaves the process table in order, for sure, exactly when none of the bytes it stores has
      an address from 4 MB up to 8 MB. */
  lemma ReadKeepsTableIff(d: Disk, s: State, a: Ttys, c: ReadCall)
    requires ValidDisk(d) && Represents(s, a)
    ensures (forall wreck: Wreck :: Represents(ReadNext(d, s, c, wreck), a)) <==>
            forall i :: 0 <= i < |ReadReply(d, s, c).bytes| ==> !(MB4 <= Onward(c.buf, i) < MB8)
    ensures KernelSpared(d, s, c) <==>
            forall i :: 0 <= i < |ReadReply(d, s, c).bytes| ==> !(MB4 <= Onward(c.buf, i) < MB8)
  {
    SparedIff(d, s, a, c);
    ReadSimulates(d, s, a, c);
    if !KernelSpared(d, s, c) {
      assert !Represents(ReadNext(d, s, c, Nothing()), a) by { assert 0 in Used(a); }
    }
  }

  lemma CloseSimulates(s: State, a: Ttys, fd: int)
    requires Represents(s, a)
    ensures Represents(CloseNext(s, fd), a)
  {
    var r, me := CloseNext(s, fd), Me(s);
    MeIsRunning(s, a);
    assert SlotOk(s, a, me);
    DescriptorsOnly(s, a, r, r.pcbs[me].fds, r.pcbs[me].names);
  }

  lemma StoreSimulates(s: State, a: Ttys, address: Address, value: byte)
    requires Represents(s, a)
    ensures Represents(StoreNext(s, address, value), a)
  {
    var me := Me(s);
    MeIsRunning(s, a);
    assert SlotOk(s, a, me);
    DescriptorsOnly(s, a, StoreNext(s, address, value), s.pcbs[me].fds, s.pcbs[me].names);
  }

  /** Every entry that does not store over the kernel acts on the table as its stack operation. */
  lemma Simulates(d: Disk, s: State, a: Ttys, e: Event)
    requires ValidDisk(d) && Represents(s, a) && Spares(d, s, e)
    ensures Represents(Next(d, s, e), Step(d, a, e))
  {
    match e
    case Execute(_, _, _, _, _) => ExecuteSimulates(d, s, a, e);
    case Halt(_) => HaltSimulates(s, a);
    case Tick(esp, ebp) => TickSimulates(s, a, esp, ebp);
    case Open(name) => OpenSimulates(d, s, a, name);
    case Read(call, _) => ReadSimulates(d, s, a, call);
    case Close(fd) => CloseSimulates(s, a, fd);
    case Store(address, value) => StoreSimulates(s, a, address, value);
  }
}

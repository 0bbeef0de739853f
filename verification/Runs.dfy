/** Whole runs of the kernel: the state bootup leaves, any sequence of entries after it, and the
    invariant that holds in every state so reached. */
module Runs {
  import opened Basics
  import opened FileSystem
  import opened SlotMask
  import opened Processes
  import opened Chains

  // ---- Bootup ----

  /** Memory as the loader leaves it: only slot 0 marked, PCB and page-directory memory zero. */
  predicate PowerOn(s: State) {
    && Wf(s) && s.running == {0}
    && (forall p :: 0 <= p < SLOTS ==> !s.pcbs[p].hasChild && Clean(s.dirs[p]))
  }

  /** One round of bootup's loop: the shell for tty `slot - 1`. */
  function WithShell(d: Disk, s: State, slot: nat, ctx: Context): State
    requires ValidDisk(d) && Wf(s) && 0 < slot < SLOTS
  {
    var bottom := StackBottom(slot);
    var entry := Context(bottom - INITIAL_STACK, bottom - INITIAL_STACK);
    var pcb := s.pcbs[slot].(parentContext := ctx, parent := 0, number := slot,
                             fds := WithStdio(ResetFds(s.pcbs[slot].fds)),
                             hasChild := false, tty := slot - 1, saved := entry);
    Mapped(d, s, slot, "shell").(pcbs := s.pcbs[slot := pcb], stackBottom := bottom, esp0 := bottom)
  }

  /** What the round leaves in the slot, and that it touches no other slot. */
  predicate ShellReady(s: State, slot: nat)
    requires Wf(s) && 0 < slot < SLOTS
  {
    var pcb := s.pcbs[slot];
    && pcb.number == slot && pcb.parent == 0 && pcb.tty == slot - 1 && !pcb.hasChild && FdsOk(pcb.fds)
    && InStack(pcb.saved, slot) && MapsTask(s.dirs[slot], slot) && Clean(s.dirs[slot])
  }

  lemma WfWithSlot(s: State, r: State, slot: nat, pcb: Pcb)
    requires Wf(s) && slot < SLOTS && WfPcb(pcb) && |r.dirs| == SLOTS
    requires r == s.(pcbs := s.pcbs[slot := pcb], dirs := r.dirs, table := r.table, mem := r.mem, cr3 := slot,
                     stackBottom := StackBottom(slot), esp0 := StackBottom(slot))
    ensures Wf(r)
  {
    MaskFindsPcb(slot, 0);
  }

  lemma WithShellWf(d: Disk, s: State, slot: nat, ctx: Context)
    requires ValidDisk(d) && Wf(s) && 0 < slot < SLOTS
    ensures Wf(WithShell(d, s, slot, ctx))
  {
    var r := WithShell(d, s, slot, ctx);
    WfWithSlot(s, r, slot, r.pcbs[slot]);
  }

  lemma WithShellReady(d: Disk, s: State, slot: nat, ctx: Context)
    requires ValidDisk(d) && Wf(s) && 0 < slot < SLOTS && Clean(s.dirs[slot]) && Wf(WithShell(d, s, slot, ctx))
    ensures ShellReady(WithShell(d, s, slot, ctx), slot)
  {
  }

  lemma ShellRound(d: Disk, s: State, slot: nat, ctx: Context)
    requires ValidDisk(d) && Wf(s) && 0 < slot < SLOTS
    ensures var r := WithShell(d, s, slot, ctx);
            && Wf(r) && (Clean(s.dirs[slot]) ==> ShellReady(r, slot)) && r.running == s.running
            && (forall p :: 0 <= p < SLOTS && p != slot ==> r.pcbs[p] == s.pcbs[p] && r.dirs[p] == s.dirs[p])
            && r.stackBottom == r.esp0 == StackBottom(slot) && r.cr3 == slot && r.table == IdentityTable()
  {
    WithShellWf(d, s, slot, ctx);
    if Clean(s.dirs[slot]) {
      WithShellReady(d, s, slot, ctx);
    }
  }

  /** bootup's three rounds, for slots 3, 2 and 1. */
  function ShellsStarted(d: Disk, s: State, ctx: Context): State
    requires ValidDisk(d) && Wf(s)
  {
    ShellRound(d, s, 3, ctx);
    var s3 := WithShell(d, s, 3, ctx);
    ShellRound(d, s3, 2, ctx);
    var s2 := WithShell(d, s3, 2, ctx);
    WithShell(d, s2, 1, ctx)
  }

  /** The state when bootup jumps to the first shell. */
  function Booted(d: Disk, s: State, ctx: Context): State
    requires ValidDisk(d) && Wf(s)
  {
    ShellsStarted(d, s, ctx).(running := s.running + {1, 2, 3}, current := 1)
  }

  /** One shell per tty, the first one running. */
  function Shells(): Ttys {
    Ttys([[1], [2], [3]], [Free, At(0, 0), At(1, 0), At(2, 0), Free, Free, Free, Free], 0)
  }

  lemma ShellsRepresented(r: State)
    requires Wf(r) && r.running == {0, 1, 2, 3} && Coherent(r, 1) && r.table == IdentityTable()
    requires forall p :: 1 <= p <= 3 ==> ShellReady(r, p)
    requires forall p :: 0 <= p < SLOTS ==> Clean(r.dirs[p]) && !r.pcbs[p].hasChild
    ensures Represents(r, Shells())
  {
    var a := Shells();
    assert Shape(a) by {
      forall t | 0 <= t < TTYS ensures Indexed(a, t) {}
    }
    forall p | 0 <= p < SLOTS ensures SlotOk(r, a, p) {
      if 1 <= p <= 3 { assert ShellReady(r, p); }
    }
  }

  lemma LastRound(s2: State, s1: State, r: State)
    requires Wf(s2) && Wf(s1) && s1.running == {0} && ShellReady(s2, 2) && ShellReady(s2, 3) && ShellReady(s1, 1)
    requires forall p :: 0 <= p < SLOTS ==> Clean(s2.dirs[p]) && !s2.pcbs[p].hasChild
    requires forall p :: 0 <= p < SLOTS && p != 1 ==> s1.pcbs[p] == s2.pcbs[p] && s1.dirs[p] == s2.dirs[p]
    requires s1.stackBottom == s1.esp0 == StackBottom(1) && s1.cr3 == 1 && s1.table == IdentityTable()
    requires r == s1.(running := {0} + {1, 2, 3}, current := 1)
    ensures Represents(r, Shells())
  {
    forall p | 1 <= p <= 3 ensures ShellReady(r, p) {}
    ShellsRepresented(r);
  }

  lemma BootRepresents(d: Disk, s: State, ctx: Context)
    requires ValidDisk(d) && PowerOn(s)
    ensures Represents(Booted(d, s, ctx), Shells())
  {
    ShellRound(d, s, 3, ctx);
    var s3 := WithShell(d, s, 3, ctx);
    ShellRound(d, s3, 2, ctx);
    var s2 := WithShell(d, s3, 2, ctx);
    ShellRound(d, s2, 1, ctx);
    LastRound(s2, WithShell(d, s2, 1, ctx), Booted(d, s, ctx));
  }

  // ---- Runs ----

  lemma ClaimKeepsWf(s: State, slot: nat)
    requires Wf(s) && slot < SLOTS
    ensures Wf(Claimed(s, slot))
  {
  }

  lemma SpawnKeepsWf(d: Disk, s: State, slot: nat, name: string, args: string, esp: Depth, ebp: Depth)
    requires ValidDisk(d) && Wf(s) && slot < SLOTS
    ensures var ctx := Grown(s.esp0, esp, ebp);
            && 0 <= SlotOf(ctx.esp) < SLOTS && Wf(Claimed(s, slot))
            && Wf(Spawned(d, Claimed(s, slot), slot, name, args, ctx))
  {
    ClaimKeepsWf(s, slot);
    MaskFindsPcb(SlotOf(s.esp0), esp);
    SpawnedWf(d, Claimed(s, slot), slot, name, args, Grown(s.esp0, esp, ebp));
  }

  lemma ExecuteKeepsWf(d: Disk, s: State, e: Event)
    requires ValidDisk(d) && Wf(s) && e.Execute?
    ensures Wf(ExecuteNext(d, s, e))
  {
    var slot := FirstFree(s.running, 0);
    if Executes(d, s, e) {
      SpawnKeepsWf(d, s, slot, ProgramName(e.command.value), ArgumentsFor(e), e.esp, e.ebp);
    }
  }

  lemma HaltKeepsWf(s: State)
    requires Wf(s)
    ensures Wf(HaltNext(s))
  {
    MaskFindsPcb(s.pcbs[Me(s)].parent, 0);
  }

  lemma TickKeepsWf(s: State, esp: Depth, ebp: Depth)
    requires Wf(s)
    ensures Wf(TickNext(s, esp, ebp))
  {
    MaskFindsPcb(NextLeaf(s, 1), 0);
  }

  lemma OpenKeepsWf(d: Disk, s: State, name: string)
    requires ValidDisk(d) && Wf(s)
    ensures Wf(OpenNext(d, s, name))
  {
  }

  lemma ReadKeepsWf(d: Disk, s: State, c: ReadCall)
    requires ValidDisk(d) && Wf(s)
    ensures Wf(ReadDone(d, s, c))
  {
  }

  lemma NextKeepsWf(d: Disk, s: State, e: Event)
    requires ValidDisk(d) && Wf(s)
    ensures Wf(Next(d, s, e))
  {
    match e
    case Execute(_, _, _, _, _) => ExecuteKeepsWf(d, s, e);
    case Halt(_) => HaltKeepsWf(s);
    case Tick(esp, ebp) => TickKeepsWf(s, esp, ebp);
    case Open(name) => OpenKeepsWf(d, s, name);
    case Read(call, _) => ReadKeepsWf(d, s, call);
    case Close(_) =>
    case Store(_, _) =>
  }

  /** The state after a sequence of entries. */
  function Run(d: Disk, s: State, es: seq<Event>): (r: State)
    requires ValidDisk(d) && Wf(s)
    ensures Wf(r)
    decreases |es|
  {
    if es == [] then s
    else
      NextKeepsWf(d, s, es[0]);
      Run(d, Next(d, s, es[0]), es[1..])
  }

  /** No read of the run stores over the kernel. */
  predicate Orderly(d: Disk, s: State, es: seq<Event>)
    requires ValidDisk(d) && Wf(s)
    decreases |es|
  {
    es != [] ==>
      Spares(d, s, es[0]) && (NextKeepsWf(d, s, es[0]); Orderly(d, Next(d, s, es[0]), es[1..]))
  }

  lemma StepKeepsShape(d: Disk, a: Ttys, e: Event)
    requires ValidDisk(d) && Shape(a)
    ensures Shape(Step(d, a, e))
  {
    match e
    case Execute(command, junk, _, _, _) =>
      var slot := FirstFree(Used(a), 0);
      if slot < SLOTS { PushShape(a, slot); }
    case Halt(_) =>
      if |a.stacks[a.active]| > 1 { PopShape(a); }
    case _ =>
      var b := Step(d, a, e);
      forall p | 0 <= p < SLOTS ensures Placed(b, p) { assert Placed(a, p); }
      forall t | 0 <= t < TTYS ensures Indexed(b, t) { assert Indexed(a, t); }
  }

  function Steps(d: Disk, a: Ttys, es: seq<Event>): (r: Ttys)
    requires ValidDisk(d) && Shape(a)
    ensures Shape(r)
    decreases |es|
  {
    if es == [] then a
    else
      StepKeepsShape(d, a, es[0]);
      Steps(d, Step(d, a, es[0]), es[1..])
  }

  /** Every run of the process table is a run of the three stacks. */
  lemma {:induction false} EveryRunRepresents(d: Disk, s: State, a: Ttys, es: seq<Event>)
    requires ValidDisk(d) && Represents(s, a) && Orderly(d, s, es)
    ensures Represents(Run(d, s, es), Steps(d, a, es))
    decreases |es|
  {
    if es != [] {
      Simulates(d, s, a, es[0]);
      EveryRunRepresents(d, Next(d, s, es[0]), Step(d, a, es[0]), es[1..]);
    }
  }

  // ---- The process table read off the PCBs alone ----

  /** The process reached from `p` by `k` steps to the parent. */
  function Ancestor(s: State, p: nat, k: nat): (q: nat)
    requires Wf(s) && p < SLOTS
    ensures q < SLOTS
    decreases k
  {
    if k == 0 then p else Ancestor(s, s.pcbs[p].parent, k - 1)
  }

  /** Following parents from `p` leads to the root of its tty. */
  predicate ReachesRoot(s: State, p: nat)
    requires Wf(s) && p < SLOTS
  {
    exists k: nat :: k < SLOTS && Ancestor(s, p, k) == s.pcbs[p].tty + 1
  }

  /** Slots 0 to 3 are never given up; 1 to 3 are the roots, one per tty; every other running
      process hangs below a running process of its tty; and every running process reaches its root. */
  predicate Rooted(s: State)
    requires Wf(s)
  {
    && 0 in s.running
    && (forall p :: 1 <= p < SLOTS && p in s.running ==> s.pcbs[p].tty < TTYS && ReachesRoot(s, p))
    && (forall p :: 1 <= p <= 3 ==> p in s.running && s.pcbs[p].parent == 0 && s.pcbs[p].tty == p - 1)
    && (forall p :: 4 <= p < SLOTS && p in s.running ==>
          var q := s.pcbs[p].parent;
          q != 0 && q != p && q in s.running && s.pcbs[q].hasChild && s.pcbs[q].tty == s.pcbs[p].tty)
  }

  predicate HasRunningChild(s: State, p: nat)
    requires Wf(s)
  {
    exists q :: q in s.running && q != 0 && s.pcbs[q].parent == p
  }

  /** The child mark is exact, no process has two children, and free slots are unmarked. */
  predicate Marked(s: State)
    requires Wf(s)
  {
    && (forall p :: 1 <= p < SLOTS ==> (s.pcbs[p].hasChild <==> p in s.running && HasRunningChild(s, p)))
    && (forall p, q | p in s.running && q in s.running && p > 3 && q > 3 ::
          s.pcbs[p].parent == s.pcbs[q].parent ==> p == q)
  }

  predicate HasLeaf(s: State, t: nat)
    requires Wf(s)
  {
    exists p :: 0 <= p < SLOTS && Leaf(s, p) && s.pcbs[p].tty == t
  }

  /** One schedulable process per tty, and the current process is one of them. */
  predicate OneLeafEach(s: State)
    requires Wf(s)
  {
    && (forall t :: 0 <= t < TTYS ==> HasLeaf(s, t))
    && (forall p, q | 0 <= p < SLOTS && 0 <= q < SLOTS && Leaf(s, p) && Leaf(s, q) ::
          s.pcbs[p].tty == s.pcbs[q].tty ==> p == q)
    && Leaf(s, s.current)
  }

  predicate ThreeChains(s: State)
    requires Wf(s)
  {
    Rooted(s) && Marked(s) && OneLeafEach(s)
  }

  lemma StackDistinct(a: Ttys, t: nat)
    requires Shape(a) && t < TTYS
    ensures |a.stacks[t]| <= SLOTS
  {
    assert Indexed(a, t);
    var stack := a.stacks[t];
    forall j, k | 0 <= j < k < |stack| ensures stack[j] != stack[k] {
      assert a.places[stack[j]] == At(t, j) && a.places[stack[k]] == At(t, k);
    }
    DistinctFits(stack, SLOTS);
  }

  /** The process at some depth of a stack is that many steps above the root. */
  lemma {:induction false} AncestorAtDepth(s: State, a: Ttys, p: nat)
    requires Represents(s, a) && p < SLOTS && a.places[p].At?
    ensures Ancestor(s, p, a.places[p].depth) == a.places[p].tty + 1
    decreases a.places[p].depth
  {
    assert SlotOk(s, a, p) && Placed(a, p) && Indexed(a, a.places[p].tty);
    if a.places[p].depth > 0 {
      AncestorAtDepth(s, a, Below(a, p));
    }
  }

  lemma RootedTable(s: State, a: Ttys)
    requires Represents(s, a)
    ensures Rooted(s)
  {
    forall p | 1 <= p < SLOTS && p in s.running
      ensures s.pcbs[p].tty < TTYS && ReachesRoot(s, p)
    {
      assert SlotOk(s, a, p) && Placed(a, p);
      StackDistinct(a, a.places[p].tty);
      AncestorAtDepth(s, a, p);
    }
    forall p | 1 <= p <= 3
      ensures p in s.running && s.pcbs[p].parent == 0 && s.pcbs[p].tty == p - 1
    {
      assert Indexed(a, p - 1);
      assert SlotOk(s, a, p);
    }
    forall p | 4 <= p < SLOTS && p in s.running
      ensures var q := s.pcbs[p].parent;
              q != 0 && q != p && q in s.running && s.pcbs[q].hasChild && s.pcbs[q].tty == s.pcbs[p].tty
    {
      assert SlotOk(s, a, p) && Placed(a, p);
      assert Indexed(a, a.places[p].tty);
      assert SlotOk(s, a, Below(a, p)) && Placed(a, Below(a, p));
    }
  }

  lemma MarkExact(s: State, a: Ttys, p: nat)
    requires Represents(s, a) && 1 <= p < SLOTS
    ensures s.pcbs[p].hasChild <==> p in s.running && HasRunningChild(s, p)
  {
    assert SlotOk(s, a, p) && Placed(a, p);
    if s.pcbs[p].hasChild {
      var At(t, k) := a.places[p];
      assert Indexed(a, t);
      var q := a.stacks[t][k + 1];
      assert SlotOk(s, a, q) && s.pcbs[q].parent == p;
    }
    if p in s.running && HasRunningChild(s, p) {
      var q :| q in s.running && q != 0 && s.pcbs[q].parent == p;
      assert SlotOk(s, a, q) && Placed(a, q);
      assert a.places[p] == At(a.places[q].tty, a.places[q].depth - 1);
    }
  }

  lemma MarkedTable(s: State, a: Ttys)
    requires Represents(s, a)
    ensures Marked(s)
  {
    forall p | 1 <= p < SLOTS
      ensures s.pcbs[p].hasChild <==> p in s.running && HasRunningChild(s, p)
    {
      MarkExact(s, a, p);
    }
    forall p, q | p in s.running && q in s.running && p > 3 && q > 3 && s.pcbs[p].parent == s.pcbs[q].parent
      ensures p == q
    {
      assert SlotOk(s, a, p) && Placed(a, p) && SlotOk(s, a, q) && Placed(a, q);
      assert Indexed(a, a.places[p].tty) && Indexed(a, a.places[q].tty);
      assert a.places[p].depth == a.places[q].depth;
    }
  }

  lemma LeafIsTop(s: State, a: Ttys, p: nat)
    requires Represents(s, a) && p < SLOTS && Leaf(s, p)
    ensures s.pcbs[p].tty < TTYS && p == Top(a, s.pcbs[p].tty)
  {
    LeavesAreTops(s, a, p);
    assert SlotOk(s, a, p);
  }

  lemma TopIsLeaf(s: State, a: Ttys, t: nat)
    requires Represents(s, a) && t < TTYS
    ensures Leaf(s, Top(a, t)) && s.pcbs[Top(a, t)].tty == t
  {
    LeavesAreTops(s, a, Top(a, t));
    assert SlotOk(s, a, Top(a, t));
  }

  lemma LeavesOfTable(s: State, a: Ttys)
    requires Represents(s, a)
    ensures OneLeafEach(s)
  {
    forall t | 0 <= t < TTYS ensures HasLeaf(s, t) { TopIsLeaf(s, a, t); }
    forall p, q | 0 <= p < SLOTS && 0 <= q < SLOTS && Leaf(s, p) && Leaf(s, q) && s.pcbs[p].tty == s.pcbs[q].tty
      ensures p == q
    {
      LeafIsTop(s, a, p);
      LeafIsTop(s, a, q);
    }
    TopIsLeaf(s, a, a.active);
  }

  lemma RepresentedIsThreeChains(s: State, a: Ttys)
    requires Represents(s, a)
    ensures ThreeChains(s)
  {
    RootedTable(s, a);
    MarkedTable(s, a);
    LeavesOfTable(s, a);
  }

  lemma RunKeepsThreeChains(d: Disk, s: State, a: Ttys, es: seq<Event>)
    requires ValidDisk(d) && Represents(s, a) && Orderly(d, s, es)
    ensures Represents(Run(d, s, es), Steps(d, a, es))
    ensures var r := Run(d, s, es);
            ThreeChains(r) && Coherent(r, r.current) && Align8KB(r.stackBottom) == PcbAddress(r.current)
  {
    EveryRunRepresents(d, s, a, es);
    RepresentedIsThreeChains(Run(d, s, es), Steps(d, a, es));
    MaskFindsPcb(Run(d, s, es).current, 0);
  }

  /** In every run after bootup the running processes form exactly three chains, one per tty, each
      ending at its root; the child marks are exact; the current process is a leaf; and current_process_number,
      kernel_stack_bottom, tss.esp0 and CR3 name the same slot, whose PCB the 8 KB mask finds. */
  lemma EveryRunKeepsThreeChains(d: Disk, s: State, ctx: Context, es: seq<Event>)
    requires ValidDisk(d) && PowerOn(s) && (BootRepresents(d, s, ctx); Orderly(d, Booted(d, s, ctx), es))
    ensures Represents(Booted(d, s, ctx), Shells())
    ensures Represents(Run(d, Booted(d, s, ctx), es), Steps(d, Shells(), es))
    ensures var r := Run(d, Booted(d, s, ctx), es);
            ThreeChains(r) && Coherent(r, r.current) && Align8KB(r.stackBottom) == PcbAddress(r.current)
  {
    BootRepresents(d, s, ctx);
    RunKeepsThreeChains(d, Booted(d, s, ctx), Shells(), es);
  }

  /** execute changes nothing exactly when its checks fail or the table is full; the failures
      that would strike after the slot is claimed, and the branch for a lone first process, are
      never taken. */
  lemma FailedExecuteChangesNothing(d: Disk, s: State, a: Ttys, e: Event)
    requires ValidDisk(d) && Represents(s, a) && e.Execute?
    ensures ExecuteNext(d, s, e) == s <==> !Executes(d, s, e)
    ensures Executes(d, s, e) ==>
              && ExecuteNext(d, s, e).running == s.running + {FirstFree(s.running, 0)}
              && ExecuteNext(d, s, e).running != {0, 1}
              && FsRead(d, ProgramName(e.command.value), ENTRY_POINT_OFFSET, 4).ret != -1
  {
    if Executes(d, s, e) {
      ExecuteEnters(d, s, a, e);
    }
  }

  /** The eight kernel stacks do not overlap. */
  lemma StacksDisjoint(p: nat, q: nat, address: int)
    requires p < SLOTS && q < SLOTS
    requires PcbAddress(p) <= address < PcbAddress(p) + KB8 && PcbAddress(q) <= address < PcbAddress(q) + KB8
    ensures p == q
  {
  }

  // ---- What a step leaves alone ----

  lemma ExecuteSparesOthers(d: Disk, s: State, a: Ttys, e: Event, p: nat)
    requires ValidDisk(d) && Represents(s, a) && e.Execute? && p < SLOTS && a.places[p].At? && p != Running(a)
    ensures var r := ExecuteNext(d, s, e);
            |r.dirs| == |r.pcbs| == SLOTS && r.dirs[p] == s.dirs[p] && r.pcbs[p] == s.pcbs[p]
  {
    ExecuteKeepsWf(d, s, e);
    MeIsRunning(s, a);
    if Executes(d, s, e) {
      ExecuteEnters(d, s, a, e);
    }
    assert SlotOk(s, a, p) && p in s.running;
  }

  /** A step touches no process but the one that makes it, save that a halting process clears the
      child mark of the parent it hands the processor to. */
  lemma OthersUntouched(d: Disk, s: State, a: Ttys, e: Event, p: nat)
    requires ValidDisk(d) && Represents(s, a) && Spares(d, s, e) && p < SLOTS && a.places[p].At? && p != Running(a)
    ensures var r := Next(d, s, e);
            && Wf(r) && r.dirs[p] == s.dirs[p]
            && if e.Halt? && p == Below(a, Running(a))
               then r.pcbs[p] == s.pcbs[p].(hasChild := false) && r.current == p
               else r.pcbs[p] == s.pcbs[p]
  {
    NextKeepsWf(d, s, e);
    MeIsRunning(s, a);
    assert SlotOk(s, a, Running(a));
    match e
    case Execute(_, _, _, _, _) => ExecuteSparesOthers(d, s, a, e, p);
    case Halt(_) =>
    case Tick(_, _) =>
    case _ =>
  }

  lemma ExecuteKeepsCaller(d: Disk, s: State, a: Ttys, e: Event)
    requires ValidDisk(d) && Represents(s, a) && e.Execute?
    ensures var p, r := s.current, ExecuteNext(d, s, e);
            && Wf(r) && r.dirs[p] == s.dirs[p]
            && r.pcbs[p] == s.pcbs[p].(hasChild := r.pcbs[p].hasChild) && (r != s ==> r.pcbs[p].hasChild)
  {
    ExecuteKeepsWf(d, s, e);
    MeIsRunning(s, a);
    if Executes(d, s, e) {
      ExecuteEnters(d, s, a, e);
    }
    assert SlotOk(s, a, s.current) && s.current in s.running;
  }

  /** The process that makes a step keeps its identity, its place and its way back. */
  lemma SelfKeepsIdentity(d: Disk, s: State, a: Ttys, e: Event)
    requires ValidDisk(d) && Represents(s, a) && Spares(d, s, e)
    ensures var p := s.current;
            var r := Next(d, s, e);
            && Wf(r) && r.dirs[p] == s.dirs[p]
            && r.pcbs[p] == s.pcbs[p].(fds := r.pcbs[p].fds, names := r.pcbs[p].names,
                                       hasChild := r.pcbs[p].hasChild, saved := r.pcbs[p].saved)
            && (e.Execute? || e.Tick? || e.Halt? || e.Store? ==>
                  r.pcbs[p].fds == s.pcbs[p].fds && r.pcbs[p].names == s.pcbs[p].names)
            && (e.Execute? && r != s ==> r.pcbs[p].hasChild)
            && (!e.Execute? ==> r.pcbs[p].hasChild == s.pcbs[p].hasChild)
            && (e.Tick? ==> r.pcbs[p].saved == Context(s.esp0 - e.esp, s.esp0 - e.ebp))
            && (!e.Tick? ==> r.pcbs[p].saved == s.pcbs[p].saved)
  {
    NextKeepsWf(d, s, e);
    MeIsRunning(s, a);
    assert SlotOk(s, a, Running(a));
    match e
    case Execute(_, _, _, _, _) => ExecuteKeepsCaller(d, s, a, e);
    case Halt(_) =>
    case Tick(_, _) => NextLeafIsNextTop(s, a);
    case _ =>
  }
}

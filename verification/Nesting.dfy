/** halt undoes execute: on each tty execute and halt nest like calls and returns, whatever the
    other ttys do in between. */
module Nesting {
  import opened FileSystem
  import opened SlotMask
  import opened Processes
  import opened Chains
  import opened Runs

  /** Throughout the run the stack of tty `t` stays deeper than `n`. */
  predicate StaysDeeper(d: Disk, a: Ttys, es: seq<Event>, t: nat, n: nat)
    requires ValidDisk(d) && Shape(a) && t < TTYS
    decreases |es|
  {
    && |a.stacks[t]| > n
    && (es != [] ==>
          (StepKeepsShape(d, a, es[0]); StaysDeeper(d, Step(d, a, es[0]), es[1..], t, n)))
  }

  /** A process of the chain below the child: as it was, but marked as having a child. */
  predicate Suspended(s: State, r: State, p: nat)
    requires Wf(s) && Wf(r) && p < SLOTS
  {
    r.pcbs[p] == s.pcbs[p].(hasChild := true) && r.dirs[p] == s.dirs[p]
  }

  /** The whole chain `a.stacks[t]` is suspended in `r`, with `child` right above it, holding the
      context to return to. */
  predicate ChainSuspended(s: State, a: Ttys, r: State, b: Ttys, t: nat, child: nat, ctx: Context)
    requires Wf(s) && Shape(a) && Wf(r) && Shape(b) && t < TTYS && child < SLOTS
  {
    && |b.stacks[t]| > |a.stacks[t]| && b.stacks[t][..|a.stacks[t]|] == a.stacks[t]
    && b.stacks[t][|a.stacks[t]|] == child && r.pcbs[child].parentContext == ctx
    && (forall k :: 0 <= k < |a.stacks[t]| ==> Indexed(a, t) && Suspended(s, r, a.stacks[t][k]))
  }

  /** A step that leaves the stack deeper than `n` leaves its first `n + 1` entries in place. */
  lemma StepKeepsPrefix(d: Disk, b: Ttys, e: Event, t: nat, n: nat)
    requires ValidDisk(d) && Shape(b) && t < TTYS && |b.stacks[t]| > n
    requires Shape(Step(d, b, e)) && |Step(d, b, e).stacks[t]| > n
    ensures Step(d, b, e).stacks[t][..n + 1] == b.stacks[t][..n + 1]
  {
  }

  lemma ProcessStaysSuspended(d: Disk, s: State, r: State, b: Ttys, e: Event, t: nat, k: nat, n: nat)
    requires ValidDisk(d) && Wf(s) && Represents(r, b) && Spares(d, r, e) && t < TTYS && k < n < |b.stacks[t]|
    requires Shape(Step(d, b, e)) && |Step(d, b, e).stacks[t]| > n
    requires b.stacks[t][k] < SLOTS && Suspended(s, r, b.stacks[t][k]) && Wf(Next(d, r, e))
    ensures Suspended(s, Next(d, r, e), b.stacks[t][k])
  {
    var p := b.stacks[t][k];
    assert Indexed(b, t);
    OthersUntouched(d, r, b, e, p);
  }

  lemma ChildKeepsContext(d: Disk, r: State, b: Ttys, e: Event, child: nat)
    requires ValidDisk(d) && Represents(r, b) && Spares(d, r, e) && child < SLOTS && b.places[child].At?
    requires Wf(Next(d, r, e))
    ensures Next(d, r, e).pcbs[child].parentContext == r.pcbs[child].parentContext
  {
    if child == Running(b) {
      SelfKeepsIdentity(d, r, b, e);
    } else {
      OthersUntouched(d, r, b, e, child);
    }
  }

  /** A step that leaves the stack deeper than the chain leaves the chain suspended. */
  lemma StepKeepsSuspended(d: Disk, s: State, a: Ttys, r: State, b: Ttys, e: Event, t: nat, child: nat, ctx: Context)
    requires ValidDisk(d) && Wf(s) && Shape(a) && Represents(r, b) && Spares(d, r, e) && t < TTYS && child < SLOTS
    requires ChainSuspended(s, a, r, b, t, child, ctx)
    requires Shape(Step(d, b, e)) && |Step(d, b, e).stacks[t]| > |a.stacks[t]|
    ensures Wf(Next(d, r, e))
    ensures ChainSuspended(s, a, Next(d, r, e), Step(d, b, e), t, child, ctx)
  {
    NextKeepsWf(d, r, e);
    var n, stack := |a.stacks[t]|, b.stacks[t];
    StepKeepsPrefix(d, b, e, t, n);
    assert stack[..n + 1][..n] == stack[..n] && stack[..n + 1][n] == child;
    forall k | 0 <= k < n
      ensures Indexed(a, t) && Suspended(s, Next(d, r, e), a.stacks[t][k])
    {
      assert a.stacks[t][k] == stack[k];
      ProcessStaysSuspended(d, s, r, b, e, t, k, n);
    }
    assert Indexed(b, t);
    ChildKeepsContext(d, r, b, e, child);
  }

  lemma {:induction false} RunKeepsSuspended(d: Disk, s: State, a: Ttys, r: State, b: Ttys, es: seq<Event>, t: nat,
                                            child: nat, ctx: Context)
    requires ValidDisk(d) && Represents(s, a) && Represents(r, b) && t < TTYS && child < SLOTS
    requires ChainSuspended(s, a, r, b, t, child, ctx)
    requires Orderly(d, r, es) && StaysDeeper(d, b, es, t, |a.stacks[t]|)
    ensures ChainSuspended(s, a, Run(d, r, es), Steps(d, b, es), t, child, ctx)
    decreases |es|
  {
    if es != [] {
      Simulates(d, r, b, es[0]);
      StepKeepsSuspended(d, s, a, r, b, es[0], t, child, ctx);
      RunKeepsSuspended(d, s, a, Next(d, r, es[0]), Step(d, b, es[0]), es[1..], t, child, ctx);
    }
  }

  /** `r` has tty `t`'s chain, and the processor, exactly as `s` had them. */
  predicate ChainRestored(s: State, a: Ttys, r: State, b: Ttys)
    requires Wf(s) && Shape(a) && Wf(r) && Shape(b)
  {
    var t := a.active;
    && b.active == t && b.stacks[t] == a.stacks[t]
    && r.current == s.current && r.stackBottom == s.stackBottom && r.esp0 == s.esp0 && r.cr3 == s.cr3
    && (forall p :: 0 <= p < SLOTS && p in a.stacks[t] ==>
          p in r.running && r.pcbs[p] == s.pcbs[p] && r.dirs[p] == s.dirs[p])
  }

  lemma EnteringSuspends(s: State, a: Ttys, r: State, slot: nat, ctx: Context)
    requires Represents(s, a) && 0 < slot < SLOTS && slot !in s.running && Wf(Claimed(s, slot))
    requires Enters(Claimed(s, slot), r, slot, Running(a), ctx) && Shape(Pushed(a, slot))
    ensures ChainSuspended(s, a, r, Pushed(a, slot), a.active, slot, ctx)
  {
    var t := a.active;
    assert Indexed(a, t);
    forall k | 0 <= k < |a.stacks[t]|
      ensures Suspended(s, r, a.stacks[t][k])
    {
      assert SlotOk(s, a, a.stacks[t][k]);
    }
  }

  lemma ExecuteSuspends(d: Disk, s: State, a: Ttys, e: Event)
    requires ValidDisk(d) && Represents(s, a) && e.Execute? && Executes(d, s, e)
    ensures var r := ExecuteNext(d, s, e);
            var b := Step(d, a, e);
            && Represents(r, b) && r.current < SLOTS
            && ChainSuspended(s, a, r, b, a.active, r.current, Grown(s.esp0, e.esp, e.ebp))
  {
    ExecuteEnters(d, s, a, e);
    ExecuteSimulates(d, s, a, e);
    EnteringSuspends(s, a, ExecuteNext(d, s, e), FirstFree(s.running, 0), Grown(s.esp0, e.esp, e.ebp));
  }

  /** What the halt of a non-root process does, in terms of the stacks. */
  lemma HaltForm(r: State, b: Ttys)
    requires Represents(r, b) && |b.stacks[b.active]| > 1
    ensures var h := HaltNext(r);
            var parent := Below(b, Running(b));
            && h.running == r.running - {Running(b)} && h.regs == r.pcbs[Running(b)].parentContext
            && Coherent(h, parent) && h.dirs == r.dirs
            && h.pcbs == r.pcbs[parent := r.pcbs[parent].(hasChild := false)]
  {
    MeIsRunning(r, b);
    assert SlotOk(r, b, Running(b));
  }

  lemma ProcessRestored(s: State, a: Ttys, r: State, b: Ttys, h: State, child: nat, ctx: Context, k: nat)
    requires Represents(s, a) && Represents(r, b) && child < SLOTS && k < |a.stacks[a.active]|
    requires ChainSuspended(s, a, r, b, a.active, child, ctx)
    requires h.running == r.running - {child} && h.dirs == r.dirs
    requires h.pcbs == r.pcbs[s.current := r.pcbs[s.current].(hasChild := false)]
    ensures var p := a.stacks[a.active][k];
            p < SLOTS && p in h.running && h.pcbs[p] == s.pcbs[p] && h.dirs[p] == s.dirs[p]
  {
    var p := a.stacks[a.active][k];
    assert Indexed(a, a.active) && Indexed(b, a.active);
    assert Suspended(s, r, p) && SlotOk(s, a, p);
    assert b.stacks[a.active][k] == p;
  }

  /** The halt that takes the stack back to the suspended chain restores it. */
  lemma HaltRestores(s: State, a: Ttys, r: State, b: Ttys, child: nat, ctx: Context)
    requires Represents(s, a) && Represents(r, b) && child < SLOTS
    requires b.active == a.active && |b.stacks[b.active]| == |a.stacks[a.active]| + 1
    requires ChainSuspended(s, a, r, b, a.active, child, ctx)
    ensures Represents(HaltNext(r), Popped(b)) && ChainRestored(s, a, HaltNext(r), Popped(b))
    ensures r.current == child && child !in HaltNext(r).running && HaltNext(r).regs == ctx
  {
    var t, h := a.active, HaltNext(r);
    HaltSimulates(r, b);
    HaltForm(r, b);
    assert Below(b, child) == b.stacks[t][..|a.stacks[t]|][|a.stacks[t]| - 1] == s.current;
    forall p | 0 <= p < SLOTS && p in a.stacks[t]
      ensures p in h.running && h.pcbs[p] == s.pcbs[p] && h.dirs[p] == s.dirs[p]
    {
      var k :| 0 <= k < |a.stacks[t]| && a.stacks[t][k] == p;
      ProcessRestored(s, a, r, b, h, child, ctx, k);
    }
  }

  /** From any state with a suspended chain, the halt that returns to it restores it. */
  lemma HaltReturns(d: Disk, s: State, a: Ttys, s1: State, a1: Ttys, es: seq<Event>, child: nat, ctx: Context)
    requires ValidDisk(d) && Represents(s, a) && Represents(s1, a1) && child < SLOTS
    requires ChainSuspended(s, a, s1, a1, a.active, child, ctx)
    requires Orderly(d, s1, es) && StaysDeeper(d, a1, es, a.active, |a.stacks[a.active]|)
    requires var b := Steps(d, a1, es);
             b.active == a.active && |b.stacks[b.active]| == |a.stacks[a.active]| + 1
    ensures var r := Run(d, s1, es);
            var h := HaltNext(r);
            && Wf(h) && r.current == child && child !in h.running && h.regs == ctx
            && Represents(h, Popped(Steps(d, a1, es))) && ChainRestored(s, a, h, Popped(Steps(d, a1, es)))
  {
    RunKeepsSuspended(d, s, a, s1, a1, es, a.active, child, ctx);
    EveryRunRepresents(d, s1, a1, es);
    HaltRestores(s, a, Run(d, s1, es), Steps(d, a1, es), child, ctx);
  }

  lemma TtySlots(s: State, a: Ttys, t: nat, p: nat)
    requires Represents(s, a) && t < TTYS && 1 <= p < SLOTS
    ensures p in s.running && s.pcbs[p].tty == t <==> p in a.stacks[t]
  {
    assert SlotOk(s, a, p) && Placed(a, p) && Indexed(a, t);
  }

  /** The same slots run on tty `t`. */
  predicate SameSlots(s: State, h: State, t: nat)
    requires Wf(s) && Wf(h)
  {
    forall p :: 1 <= p < SLOTS ==> (p in h.running && h.pcbs[p].tty == t <==> p in s.running && s.pcbs[p].tty == t)
  }

  lemma SlotsRestored(s: State, a: Ttys, h: State, b: Ttys, t: nat)
    requires Represents(s, a) && Represents(h, b) && t < TTYS && b.stacks[t] == a.stacks[t]
    ensures SameSlots(s, h, t)
  {
    forall p | 1 <= p < SLOTS
      ensures p in h.running && h.pcbs[p].tty == t <==> p in s.running && s.pcbs[p].tty == t
    {
      TtySlots(s, a, t, p);
      TtySlots(h, b, t, p);
    }
  }

  /** When the process that an execute started halts, its tty's chain and running slots, the processor
      registers, the page directory and the kernel context are back to what they were at the execute. */
  lemma HaltUndoesExecute(d: Disk, s: State, a: Ttys, e: Event, es: seq<Event>)
    requires ValidDisk(d) && Represents(s, a) && e.Execute? && Executes(d, s, e)
    requires (ExecuteKeepsWf(d, s, e); Orderly(d, ExecuteNext(d, s, e), es))
    requires (StepKeepsShape(d, a, e); StaysDeeper(d, Step(d, a, e), es, a.active, |a.stacks[a.active]|))
    requires var b := Steps(d, Step(d, a, e), es);
             b.active == a.active && |b.stacks[b.active]| == |a.stacks[a.active]| + 1
    ensures var s1 := ExecuteNext(d, s, e);
            var r := Run(d, s1, es);
            var h := HaltNext(r);
            && Represents(h, Popped(Steps(d, Step(d, a, e), es)))
            && r.current == s1.current && s1.current !in h.running
            && h.regs == Context(s.esp0 - e.esp, s.esp0 - e.ebp)
            && ChainRestored(s, a, h, Popped(Steps(d, Step(d, a, e), es)))
            && SameSlots(s, h, a.active)
  {
    ExecuteSuspends(d, s, a, e);
    var s1, a1 := ExecuteNext(d, s, e), Step(d, a, e);
    HaltReturns(d, s, a, s1, a1, es, s1.current, Grown(s.esp0, e.esp, e.ebp));
    SlotsRestored(s, a, HaltNext(Run(d, s1, es)), Popped(Steps(d, a1, es)), a.active);
  }
}

/** What the timer guarantees over whole runs: no schedulable process waits more than seven
    ticks, and every process is resumed exactly where it last lost the processor. */
module Scheduling {
  import opened FileSystem
  import opened SlotMask
  import opened Processes
  import opened Chains
  import opened Runs

  function Ticks(es: seq<Event>): nat {
    if es == [] then 0 else (if es[0].Tick? then 1 else 0) + Ticks(es[1..])
  }

  // ---- Bounded waiting ----

  /** The tty that is neither running nor `u`. */
  function Third(a: Ttys, u: nat): (v: nat)
    requires Shape(a) && u < TTYS && u != a.active
    ensures v < TTYS && v != u && v != a.active
  {
    3 - u - a.active
  }

  /** How far the third top lies after the waiting process: the ticks it can still wait. */
  function Patience(a: Ttys, u: nat): (n: nat)
    requires Shape(a) && u < TTYS && u != a.active
    ensures 1 <= n < SLOTS
  {
    Ahead(Top(a, u), Top(a, Third(a, u)))
  }

  lemma SameStackSameTop(a: Ttys, b: Ttys, u: nat)
    requires Shape(a) && Shape(b) && u < TTYS && a.stacks[u] == b.stacks[u]
    ensures Top(a, u) == Top(b, u)
  {
  }

  lemma OthersKeepStacks(d: Disk, a: Ttys, e: Event, u: nat)
    requires ValidDisk(d) && Shape(a) && u < TTYS && u != a.active
    ensures Shape(Step(d, a, e))
    ensures Step(d, a, e).stacks[u] == a.stacks[u] && Top(Step(d, a, e), u) == Top(a, u)
    ensures !e.Tick? ==> Step(d, a, e).active == a.active
  {
    var b := Step(d, a, e);
    StepKeepsShape(d, a, e);
    assert b.stacks[u] == a.stacks[u] && (!e.Tick? ==> b.active == a.active);
    SameStackSameTop(a, b, u);
  }

  lemma TickWhileWaiting(a: Ttys, b: Ttys, u: nat)
    requires Shape(a) && Shape(b) && u < TTYS && u != a.active
    requires b == a.(active := NextTty(a)) && b.active != u
    ensures Patience(b, u) < Patience(a, u)
  {
  }

  lemma StepWhileWaiting(d: Disk, a: Ttys, e: Event, u: nat)
    requires ValidDisk(d) && Shape(a) && u < TTYS && u != a.active
    ensures var b := Step(d, a, e);
            && Shape(b) && Top(b, u) == Top(a, u)
            && (b.active != u ==> Patience(b, u) <= Patience(a, u) - (if e.Tick? then 1 else 0))
            && (b.active == u ==> e.Tick?)
  {
    OthersKeepStacks(d, a, e, u);
    OthersKeepStacks(d, a, e, Third(a, u));
    if e.Tick? && Step(d, a, e).active != u {
      TickWhileWaiting(a, Step(d, a, e), u);
    }
  }

  lemma RunPrefix(d: Disk, s: State, es: seq<Event>, n: nat)
    requires ValidDisk(d) && Wf(s) && n < |es| && Wf(Next(d, s, es[0]))
    ensures Run(d, s, es[..n + 1]) == Run(d, Next(d, s, es[0]), es[1..][..n])
  {
    assert es[..n + 1][0] == es[0] && es[..n + 1][1..] == es[1..][..n];
  }

  /** A schedulable process without the processor gets it within as many ticks as its patience,
      hence within seven, whatever the other ttys execute, halt or do in between. */
  lemma {:induction false} BoundedWaiting(d: Disk, s: State, a: Ttys, es: seq<Event>, p: nat)
    requires ValidDisk(d) && Represents(s, a) && Orderly(d, s, es)
    requires p < SLOTS && Leaf(s, p) && p != s.current
    requires Ticks(es) >= 7 ||
             (var u := s.pcbs[p].tty; u < TTYS && u != a.active && Ticks(es) >= Patience(a, u))
    ensures exists n :: 0 <= n <= |es| && Run(d, s, es[..n]).current == p
    decreases |es|
  {
    LeafIsTop(s, a, p);
    var u := s.pcbs[p].tty;
    assert Ticks(es) >= Patience(a, u);
    var s', a' := Next(d, s, es[0]), Step(d, a, es[0]);
    Simulates(d, s, a, es[0]);
    StepWhileWaiting(d, a, es[0], u);
    assert Top(a', u) == p;
    if a'.active == u {
      RunPrefix(d, s, es, 0);
      assert Run(d, s, es[..1]).current == p;
    } else {
      TopIsLeaf(s', a', u);
      BoundedWaiting(d, s', a', es[1..], p);
      var n :| 0 <= n <= |es[1..]| && Run(d, s', es[1..][..n]).current == p;
      RunPrefix(d, s, es, n);
    }
  }

  // ---- No stale context ----

  /** The context in which `p` last lost the processor to the timer: none while it has the
      processor, and none when it gave the processor up in any other way. */
  function Lost(d: Disk, s: State, e: Event, p: nat, before: Option<Context>): Option<Context>
    requires ValidDisk(d) && Wf(s)
  {
    var r := Next(d, s, e);
    if s.current == p && r.current != p && e.Tick? then Some(Grown(s.esp0, e.esp, e.ebp))
    else if s.current == p || r.current == p then None
    else before
  }

  function LastLost(d: Disk, s: State, es: seq<Event>, p: nat, before: Option<Context>): Option<Context>
    requires ValidDisk(d) && Wf(s)
    decreases |es|
  {
    if es == [] then before
    else
      NextKeepsWf(d, s, es[0]);
      LastLost(d, Next(d, s, es[0]), es[1..], p, Lost(d, s, es[0], p, before))
  }

  lemma WaiterKeepsWaiting(d: Disk, s: State, a: Ttys, e: Event, p: nat)
    requires ValidDisk(d) && Represents(s, a) && Spares(d, s, e) && p < SLOTS && Wf(Next(d, s, e))
    requires Leaf(Next(d, s, e), p) && Next(d, s, e).current != p && s.current != p
    ensures Leaf(s, p) && Next(d, s, e).pcbs[p].saved == s.pcbs[p].saved
  {
    Simulates(d, s, a, e);
    var b := Step(d, a, e);
    LeafIsTop(Next(d, s, e), b, p);
    var u := b.places[p].tty;
    assert u != a.active;
    OthersKeepStacks(d, a, e, u);
    TopIsLeaf(s, a, u);
    OthersUntouched(d, s, a, e, p);
  }

  /** A schedulable process without the processor was one before, with the same saved context,
      unless it has just lost the processor to the timer. */
  lemma WaitersKeepContext(d: Disk, s: State, a: Ttys, e: Event, p: nat)
    requires ValidDisk(d) && Represents(s, a) && Spares(d, s, e) && p < SLOTS && Wf(Next(d, s, e))
    requires Leaf(Next(d, s, e), p) && Next(d, s, e).current != p
    ensures s.current == p ==> e.Tick? && Next(d, s, e).pcbs[p].saved == Grown(s.esp0, e.esp, e.ebp)
    ensures s.current != p ==> Leaf(s, p) && Next(d, s, e).pcbs[p].saved == s.pcbs[p].saved
  {
    if s.current == p {
      Simulates(d, s, a, e);
      LeafIsTop(Next(d, s, e), Step(d, a, e), p);
      SelfKeepsIdentity(d, s, a, e);
      assert SlotOk(s, a, p);
    } else {
      WaiterKeepsWaiting(d, s, a, e, p);
    }
  }

  /** Every schedulable process without the processor has, in its PCB, the context in which it
      last lost the processor to the timer, and that is how it last lost it. */
  lemma {:induction false} NoStaleContext(d: Disk, s: State, a: Ttys, es: seq<Event>, p: nat, before: Option<Context>)
    requires ValidDisk(d) && Represents(s, a) && Orderly(d, s, es) && p < SLOTS
    requires Leaf(s, p) && p != s.current ==> before == Some(s.pcbs[p].saved)
    ensures var r := Run(d, s, es);
            Leaf(r, p) && p != r.current ==> LastLost(d, s, es, p, before) == Some(r.pcbs[p].saved)
    decreases |es|
  {
    if es != [] {
      var e := es[0];
      Simulates(d, s, a, e);
      if Leaf(Next(d, s, e), p) && Next(d, s, e).current != p {
        WaitersKeepContext(d, s, a, e, p);
      }
      NoStaleContext(d, Next(d, s, e), Step(d, a, e), es[1..], p, Lost(d, s, e, p, before));
    }
  }

  /** After bootup, the process a tick hands the processor to resumes, on its own kernel stack, in
      exactly the context it last lost the processor in (for a shell that has not run yet, the
      frame bootup built for it). */
  lemma ResumedWhereLeft(d: Disk, s: State, ctx: Context, es: seq<Event>, esp: Depth, ebp: Depth)
    requires ValidDisk(d) && PowerOn(s) && (BootRepresents(d, s, ctx); Orderly(d, Booted(d, s, ctx), es))
    ensures var boot := Booted(d, s, ctx);
            var r := Run(d, boot, es);
            var next := TickNext(r, esp, ebp);
            && Wf(next) && next.current != r.current
            && InStack(next.regs, next.current)
            && LastLost(d, boot, es, next.current, Some(boot.pcbs[next.current].saved)) == Some(next.regs)
  {
    BootRepresents(d, s, ctx);
    ResumeFrom(d, Booted(d, s, ctx), Shells(), es, esp, ebp);
  }

  lemma ResumeFrom(d: Disk, s: State, a: Ttys, es: seq<Event>, esp: Depth, ebp: Depth)
    requires ValidDisk(d) && Represents(s, a) && Orderly(d, s, es)
    ensures var r := Run(d, s, es);
            var next := TickNext(r, esp, ebp);
            && Wf(next) && next.current != r.current
            && InStack(next.regs, next.current)
            && LastLost(d, s, es, next.current, Some(s.pcbs[next.current].saved)) == Some(next.regs)
  {
    EveryRunRepresents(d, s, a, es);
    var r, b := Run(d, s, es), Steps(d, a, es);
    NextLeafIsNextTop(r, b);
    TickSimulates(r, b, esp, ebp);
    var p := NextLeaf(r, 1);
    TopIsLeaf(r, b, NextTty(b));
    assert SlotOk(r, b, p);
    NoStaleContext(d, s, a, es, p, Some(s.pcbs[p].saved));
  }
}

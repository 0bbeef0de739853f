/** What happens to a process while others run: it finds its descriptors and its memory as it left
    them when it gets the processor back. */
module Interludes {
  import opened Basics
  import opened FileSystem
  import opened SlotMask
  import opened Processes
  import opened Chains
  import opened Runs
  import opened Scheduling
  import opened Isolation
  import opened Descriptors
  import opened Kernel

  /** The run consists of timer interrupts and steps of processes other than `p`, none of which stores
      over the kernel, and ends with `p` on the processor. */
  predicate Elsewhere(d: Disk, s: State, es: seq<Event>, p: nat)
    requires ValidDisk(d) && Wf(s)
    decreases |es|
  {
    if es == [] then s.current == p
    else
      && (s.current == p ==> es[0].Tick?) && Spares(d, s, es[0])
      && (NextKeepsWf(d, s, es[0]); Elsewhere(d, Next(d, s, es[0]), es[1..], p))
  }

  lemma {:induction false} ElsewhereIsOrderly(d: Disk, s: State, es: seq<Event>, p: nat)
    requires ValidDisk(d) && Wf(s) && Elsewhere(d, s, es, p)
    ensures Orderly(d, s, es)
    decreases |es|
  {
    if es != [] {
      NextKeepsWf(d, s, es[0]);
      ElsewhereIsOrderly(d, Next(d, s, es[0]), es[1..], p);
    }
  }

  /** A schedulable process that makes no step stays one. */
  lemma StaysLeaf(d: Disk, s: State, a: Ttys, e: Event, p: nat)
    requires ValidDisk(d) && Represents(s, a) && Spares(d, s, e) && p < SLOTS && Leaf(s, p)
    requires s.current == p ==> e.Tick?
    ensures a.places[p].At? && Represents(Next(d, s, e), Step(d, a, e)) && Leaf(Next(d, s, e), p)
  {
    LeafIsTop(s, a, p);
    var u := s.pcbs[p].tty;
    Simulates(d, s, a, e);
    if u != a.active {
      OthersKeepStacks(d, a, e, u);
    }
    TopIsLeaf(Next(d, s, e), Step(d, a, e), u);
  }

  lemma {:induction false} ReadingUndisturbed(d: Disk, s: State, a: Ttys, es: seq<Event>, p: nat, fd: nat,
                                             name: string, position: int)
    requires ValidDisk(d) && Represents(s, a) && p < SLOTS && Leaf(s, p) && Elsewhere(d, s, es, p)
    requires Reading(s, p, fd, name, position)
    ensures Reading(Run(d, s, es), p, fd, name, position)
    decreases |es|
  {
    if es != [] {
      StaysLeaf(d, s, a, es[0], p);
      StepKeepsReading(d, s, a, es[0], p, fd, name, position);
      ReadingUndisturbed(d, Next(d, s, es[0]), Step(d, a, es[0]), es[1..], p, fd, name, position);
    }
  }

  lemma {:induction false} MemoryUndisturbed(d: Disk, s: State, a: Ttys, es: seq<Event>, p: nat, offset: Offset)
    requires ValidDisk(d) && Represents(s, a) && 0 < p < SLOTS && Leaf(s, p) && Elsewhere(d, s, es, p)
    ensures UserByte(Run(d, s, es), p, offset) == UserByte(s, p, offset)
    decreases |es|
  {
    if es != [] {
      StaysLeaf(d, s, a, es[0], p);
      StepKeepsImage(d, s, a, es[0], p, offset);
      MemoryUndisturbed(d, Next(d, s, es[0]), Step(d, a, es[0]), es[1..], p, offset);
    }
  }

  lemma {:induction false} BackAgain(d: Disk, s: State, a: Ttys, es: seq<Event>, p: nat)
    requires ValidDisk(d) && Represents(s, a) && Elsewhere(d, s, es, p)
    ensures Represents(Run(d, s, es), Steps(d, a, es)) && Run(d, s, es).current == p
    decreases |es|
  {
    if es != [] {
      Simulates(d, s, a, es[0]);
      BackAgain(d, Next(d, s, es[0]), Step(d, a, es[0]), es[1..], p);
    }
  }

  /** What the rest of the system does the `i`-th time a process pauses in a given state. */
  type Others = (nat, State) -> seq<Event>

  /** It may do anything that leaves process `p` out and ends with `p` on the processor. */
  ghost predicate Schedule(d: Disk, others: Others, p: nat)
    requires ValidDisk(d)
  {
    forall i: nat, s: State :: Wf(s) && s.current == p ==> Elsewhere(d, s, others(i, s), p)
  }

  /** A state of the kernel and the stacks it stands for. */
  datatype Seat = Seat(s: State, a: Ttys)

  predicate Sound(seat: Seat) { Represents(seat.s, seat.a) }

  /** The current process reads the file `name` from `position` on through `fd`. */
  predicate Poised(seat: Seat, fd: nat, name: string, position: int) {
    Represents(seat.s, seat.a) && Reading(seat.s, seat.s.current, fd, name, position)
  }

  /** A buffer of that many bytes lies in the program region. */
  predicate InRegion(at: Address, n: nat) { MB128 <= at && at + n <= MB128 + MB4 }

  /** Process `p` finds the bytes in its memory at `at`. */
  predicate FindsAt(s: State, p: nat, at: Address, bytes: seq<byte>)
    requires Wf(s) && p < SLOTS && InRegion(at, |bytes|)
  {
    forall i :: 0 <= i < |bytes| ==> UserByte(s, p, at + i - MB128) == bytes[i]
  }

  lemma CurrentIsLeaf(s: State, a: Ttys)
    requires Represents(s, a)
    ensures 0 < s.current < SLOTS && Leaf(s, s.current)
  {
    TopIsLeaf(s, a, a.active);
  }

  lemma SameFound(s: State, r: State, p: nat, at: Address, bytes: seq<byte>)
    requires Wf(s) && Wf(r) && p < SLOTS && InRegion(at, |bytes|) && FindsAt(s, p, at, bytes)
    requires forall x: Offset :: UserByte(r, p, x) == UserByte(s, p, x)
    ensures FindsAt(r, p, at, bytes)
  {
  }

  lemma FoundUndisturbed(d: Disk, s: State, a: Ttys, es: seq<Event>, p: nat, at: Address, bytes: seq<byte>)
    requires ValidDisk(d) && Represents(s, a) && 0 < p < SLOTS && Leaf(s, p) && Elsewhere(d, s, es, p)
    requires InRegion(at, |bytes|) && FindsAt(s, p, at, bytes)
    ensures FindsAt(Run(d, s, es), p, at, bytes)
  {
    var r := Run(d, s, es);
    forall x: Offset ensures UserByte(r, p, x) == UserByte(s, p, x) {
      MemoryUndisturbed(d, s, a, es, p, x);
    }
    SameFound(s, r, p, at, bytes);
  }

  /** The process comes back from a pause poised as it was. */
  lemma PauseKeepsPoised(d: Disk, seat: Seat, es: seq<Event>, fd: nat, name: string, position: int)
    requires ValidDisk(d) && Poised(seat, fd, name, position) && Elsewhere(d, seat.s, es, seat.s.current)
    ensures Poised(Seat(Run(d, seat.s, es), Steps(d, seat.a, es)), fd, name, position)
  {
    CurrentIsLeaf(seat.s, seat.a);
    BackAgain(d, seat.s, seat.a, es, seat.s.current);
    ReadingUndisturbed(d, seat.s, seat.a, es, seat.s.current, fd, name, position);
  }

  /** A pause: the others do what their schedule says. */
  method Pause(k: Kernel, others: Others, i: nat, ghost seat: Seat) returns (ghost now: Seat, ghost es: seq<Event>)
    requires ValidDisk(k.disk) && k.Abs() == seat.s && Sound(seat) && Schedule(k.disk, others, seat.s.current)
    modifies k
    ensures k.Abs() == now.s && Sound(now) && now.s.current == seat.s.current
    ensures Elsewhere(k.disk, seat.s, es, seat.s.current)
    ensures now == Seat(Run(k.disk, seat.s, es), Steps(k.disk, seat.a, es))
  {
    var events := others(i, k.Abs());
    es := events;
    assert Elsewhere(k.disk, seat.s, es, seat.s.current);
    ElsewhereIsOrderly(k.disk, seat.s, es, seat.s.current);
    BackAgain(k.disk, seat.s, seat.a, es, seat.s.current);
    now := Seat(Run(k.disk, seat.s, es), Steps(k.disk, seat.a, es));
    k.PerformAll(events);
  }

  /** A pause of a process that is poised. */
  method PausePoised(k: Kernel, others: Others, i: nat, ghost seat: Seat, ghost fd: nat, ghost name: string,
                     ghost position: int)
    returns (ghost now: Seat)
    requires ValidDisk(k.disk) && k.Abs() == seat.s && Schedule(k.disk, others, seat.s.current)
    requires Poised(seat, fd, name, position)
    modifies k
    ensures k.Abs() == now.s && now.s.current == seat.s.current && Poised(now, fd, name, position)
  {
    ghost var es;
    now, es := Pause(k, others, i, seat);
    PauseKeepsPoised(k.disk, seat, es, fd, name, position);
  }

  /** A pause of a process that has something in its memory. */
  method PauseHolding(k: Kernel, others: Others, i: nat, ghost seat: Seat, ghost at: Address, ghost bytes: seq<byte>)
    returns (ghost now: Seat, ghost es: seq<Event>)
    requires ValidDisk(k.disk) && k.Abs() == seat.s && Schedule(k.disk, others, seat.s.current)
    requires Sound(seat) && InRegion(at, |bytes|) && FindsAt(seat.s, seat.s.current, at, bytes)
    modifies k
    ensures k.Abs() == now.s && Sound(now) && now.s.current == seat.s.current
    ensures FindsAt(now.s, now.s.current, at, bytes) && Elsewhere(k.disk, seat.s, es, seat.s.current)
    ensures now == Seat(Run(k.disk, seat.s, es), Steps(k.disk, seat.a, es))
  {
    now, es := Pause(k, others, i, seat);
    CurrentIsLeaf(seat.s, seat.a);
    FoundUndisturbed(k.disk, seat.s, seat.a, es, seat.s.current, at, bytes);
  }
}

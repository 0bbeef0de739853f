/** The blinking characters of the fish program (fish/blink.S) as a list of values: what add, remove,
    sync and the timer tasklet do to the list. */
module BlinkList {
  import opened Basics
  import opened Division

  const CELLS := 2000
  const WORD := 0x1_0000

  type word = w: int | 0 <= w < WORD

  /** An element without its list pointer. `on` is the low bit of the status word. */
  datatype Blink = Blink(location: word, onChar: byte, offChar: byte, onLength: word, offLength: word,
                         countdown: word, on: bool)

  // ---- One element ----

  function Started(b: Blink): Blink { b.(countdown := b.onLength, on := true) }

  /** decw */
  function Decremented(w: word): word { (w + WORD - 1) % WORD }

  /** The signed comparison with 0 after the decrement. */
  predicate StillCounting(w: word) { 0 < w < 0x8000 }

  predicate Toggles(b: Blink) { !StillCounting(Decremented(b.countdown)) }

  function Ticked(b: Blink): Blink {
    if !Toggles(b) then b.(countdown := Decremented(b.countdown))
    else b.(countdown := if b.on then b.offLength else b.onLength, on := !b.on)
  }

  function TickedTimes(b: Blink, t: nat): Blink {
    if t == 0 then b else Ticked(TickedTimes(b, t - 1))
  }

  // ---- Timing ----

  /** How many ticks a length word stands for: 0 and everything above 0x8000 run out at once. */
  function Span(length: word): (n: nat)
    ensures n >= 1
  {
    if 1 <= length <= 0x8000 then length else 1
  }

  /** The phase of an element `t` ticks after it is added. */
  function Phase(b: Blink, t: nat): nat { t % (Span(b.onLength) + Span(b.offLength)) }

  /** `e` is what became of `b` when `r` ticks of its period have passed. */
  predicate AtPhase(b: Blink, e: Blink, r: nat) {
    var s := Span(b.onLength);
    && (e.on <==> r < s)
    && e.countdown == (if r < s then b.onLength - r else b.offLength - (r - s))
    && e == b.(countdown := e.countdown, on := e.on)
  }

  lemma PhaseStep(b: Blink, e: Blink, r: nat)
    requires AtPhase(b, e, r) && r < Span(b.onLength) + Span(b.offLength)
    ensures AtPhase(b, Ticked(e), if r + 1 == Span(b.onLength) + Span(b.offLength) then 0 else r + 1)
  {
  }

  /** The closed form of the timing: after `t` ticks an element is on exactly when `t` modulo the
      whole period is below the on span, whatever the 16-bit lengths. */
  lemma {:induction false} TimingClosedForm(b: Blink, t: nat)
    ensures AtPhase(b, TickedTimes(Started(b), t), Phase(b, t))
    decreases t
  {
    var p := Span(b.onLength) + Span(b.offLength);
    if t == 0 {
      QuotientIs(0, p, 0, 0);
    } else {
      TimingClosedForm(b, t - 1);
      NextRemainder(t - 1, p);
      PhaseStep(b, TickedTimes(Started(b), t - 1), Phase(b, t - 1));
    }
  }

  /** For the lengths of ordinary use the spans are the lengths themselves. */
  lemma OrdinaryTiming(b: Blink, t: nat)
    requires 1 <= b.onLength <= 0x7FFF && 1 <= b.offLength <= 0x7FFF
    ensures TickedTimes(Started(b), t).on <==> t % (b.onLength + b.offLength) < b.onLength
  {
    TimingClosedForm(b, t);
  }

  /** Two elements blink alike from now on. */
  predicate InStep(a: Blink, b: Blink) {
    a.onLength == b.onLength && a.offLength == b.offLength && a.countdown == b.countdown && a.on == b.on
  }

  lemma {:induction false} StaysInStep(a: Blink, b: Blink, t: nat)
    requires InStep(a, b)
    ensures InStep(TickedTimes(a, t), TickedTimes(b, t))
    decreases t
  {
    if t > 0 {
      StaysInStep(a, b, t - 1);
    }
  }

  // ---- The list ----

  /** mp1_find_helper: the first match, |list| when there is none. */
  function FindFrom(list: seq<Blink>, location: word): (k: nat)
    ensures k <= |list|
    ensures k < |list| ==> list[k].location == location
    ensures forall j :: 0 <= j < k ==> list[j].location != location
  {
    if list == [] then 0 else if list[0].location == location then 0 else 1 + FindFrom(list[1..], location)
  }

  function Added(list: seq<Blink>, b: Blink): seq<Blink> {
    if b.location >= CELLS || |list| >= CELLS then list else [Started(b)] + list
  }

  function Removed(list: seq<Blink>, location: word): seq<Blink> {
    var k := FindFrom(list, location);
    if k == |list| then list else Without(list, k)
  }

  function CopyTiming(from: Blink, to: Blink): Blink {
    to.(onLength := from.onLength, offLength := from.offLength, countdown := from.countdown, on := from.on)
  }

  function Synced(list: seq<Blink>, source: word, target: word): seq<Blink> {
    var i, j := FindFrom(list, source), FindFrom(list, target);
    if i == |list| || j == |list| then list else list[j := CopyTiming(list[i], list[j])]
  }

  /** What a sync with `source` and `target` leaves: nothing changes but the timing of the first element at
      the target's location, which is then that of the first at the source's. */
  ghost predicate SyncedOnly(was: seq<Blink>, now: seq<Blink>, source: word, target: word) {
    && |now| == |was|
    && (forall k :: 0 <= k < |was| ==>
          now[k].location == was[k].location && now[k].onChar == was[k].onChar && now[k].offChar == was[k].offChar)
    && (forall j :: 0 <= j < |was| && !FirstAt(was, j, target) ==> now[j] == was[j])
    && (forall i, j :: FirstAt(was, i, source) && FirstAt(was, j, target) ==> InStep(now[j], was[i]))
  }

  /** Position `k` is the first with the location. */
  predicate FirstAt(list: seq<Blink>, k: int, location: word) {
    0 <= k < |list| && list[k].location == location && forall j :: 0 <= j < k ==> list[j].location != location
  }

  predicate SomeAt(list: seq<Blink>, location: word) {
    exists k :: 0 <= k < |list| && list[k].location == location
  }

  lemma FindIsFirst(list: seq<Blink>, location: word)
    ensures FindFrom(list, location) < |list| <==> SomeAt(list, location)
    ensures forall k :: FirstAt(list, k, location) <==> k == FindFrom(list, location) < |list|
  {
  }

  /** A sync changes the timing of its target and nothing else, and nothing at all if it fails. */
  lemma SyncChangesTiming(list: seq<Blink>, source: word, target: word)
    ensures var now := Synced(list, source, target);
            && (SomeAt(list, source) && SomeAt(list, target) ==> SyncedOnly(list, now, source, target))
            && (!SomeAt(list, source) || !SomeAt(list, target) ==> now == list)
  {
    FindIsFirst(list, source);
    FindIsFirst(list, target);
  }

  /** An add puts the element, switched on for its first span, in front of the list. */
  lemma AddedInFront(list: seq<Blink>, b: Blink)
    ensures Added(list, b) == if b.location < 2000 && |list| < 2000
                              then [b.(countdown := b.onLength, on := true)] + list else list
  {
  }

  /** A remove takes out the first element with the location and nothing else. */
  lemma RemovedFirst(list: seq<Blink>, location: word)
    ensures !SomeAt(list, location) ==> Removed(list, location) == list
    ensures forall k :: FirstAt(list, k, location) ==> Removed(list, location) == list[..k] + list[k + 1..]
  {
    FindIsFirst(list, location);
  }

  function AllTicked(list: seq<Blink>): seq<Blink> { seq(|list|, k requires 0 <= k < |list| => Ticked(list[k])) }

  /** One call into the blink code. Remove and sync get a 32-bit argument. */
  datatype Op = Add(b: Blink) | Remove(arg: nat) | Sync(arg: nat) | Tick

  function Low(arg: nat): word { arg % WORD }

  function High(arg: nat): word { (arg / WORD) % WORD }

  function Apply(list: seq<Blink>, op: Op): seq<Blink> {
    match op
    case Add(b) => Added(list, b)
    case Remove(arg) => Removed(list, Low(arg))
    case Sync(arg) => Synced(list, High(arg), Low(arg))
    case Tick => AllTicked(list)
  }

  function Run(list: seq<Blink>, ops: seq<Op>): seq<Blink>
    decreases |ops|
  {
    if ops == [] then list else Run(Apply(list, ops[0]), ops[1..])
  }

  // ---- One element through a run ----

  /** The call neither removes nor overwrites the element at position `k`. */
  predicate Spares(list: seq<Blink>, k: nat, op: Op) {
    match op
    case Remove(arg) => FindFrom(list, Low(arg)) != k
    case Sync(arg) => FindFrom(list, Low(arg)) != k
    case _ => true
  }

  /** Where the element at `k` is after a call that spares it. */
  function Moved(list: seq<Blink>, k: nat, op: Op): nat {
    match op
    case Add(b) => if Added(list, b) == list then k else k + 1
    case Remove(arg) => if FindFrom(list, Low(arg)) < k then k - 1 else k
    case _ => k
  }

  predicate SparedBy(list: seq<Blink>, k: nat, ops: seq<Op>)
    decreases |ops|
  {
    ops != [] ==>
      && Spares(list, k, ops[0])
      && SparedBy(Apply(list, ops[0]), Moved(list, k, ops[0]), ops[1..])
  }

  function MovedBy(list: seq<Blink>, k: nat, ops: seq<Op>): nat
    requires SparedBy(list, k, ops)
    decreases |ops|
  {
    if ops == [] then k else MovedBy(Apply(list, ops[0]), Moved(list, k, ops[0]), ops[1..])
  }

  function Ticks(ops: seq<Op>): nat {
    if ops == [] then 0 else (if ops[0].Tick? then 1 else 0) + Ticks(ops[1..])
  }

  lemma SparedStep(list: seq<Blink>, k: nat, op: Op)
    requires k < |list| && Spares(list, k, op)
    ensures Moved(list, k, op) < |Apply(list, op)|
    ensures Apply(list, op)[Moved(list, k, op)] == if op.Tick? then Ticked(list[k]) else list[k]
  {
    match op {
      case Add(b) =>
      case Remove(arg) =>
        var m := FindFrom(list, Low(arg));
        if m < |list| {
          assert Removed(list, Low(arg)) == list[..m] + list[m + 1..];
        }
      case Sync(arg) =>
      case Tick =>
    }
  }

  lemma {:induction false} TickedFirst(b: Blink, t: nat)
    ensures TickedTimes(Ticked(b), t) == TickedTimes(b, t + 1)
    decreases t
  {
    if t > 0 {
      TickedFirst(b, t - 1);
    }
  }

  /** Whatever else is added, removed or synced around it, an element that is spared depends only on
      how often the tasklet ran. */
  lemma {:induction false} ElementFollowsTicks(list: seq<Blink>, k: nat, ops: seq<Op>)
    requires k < |list| && SparedBy(list, k, ops)
    ensures MovedBy(list, k, ops) < |Run(list, ops)|
    ensures Run(list, ops)[MovedBy(list, k, ops)] == TickedTimes(list[k], Ticks(ops))
    decreases |ops|
  {
    if ops != [] {
      var next, at, later := Apply(list, ops[0]), Moved(list, k, ops[0]), ops[1..];
      SparedStep(list, k, ops[0]);
      ElementFollowsTicks(next, at, later);
      TickedFirst(list[k], Ticks(later));
    }
  }

  /** The timing law over whole runs: an added element is on exactly in the first part of its period. */
  lemma AddedElementTiming(list: seq<Blink>, b: Blink, ops: seq<Op>)
    requires b.location < CELLS && |list| < CELLS
    requires SparedBy(Added(list, b), 0, ops)
    ensures var after := Run(Added(list, b), ops);
            var k := MovedBy(Added(list, b), 0, ops);
            k < |after| && (after[k].on <==> Phase(b, Ticks(ops)) < Span(b.onLength))
  {
    ElementFollowsTicks(Added(list, b), 0, ops);
    TimingClosedForm(b, Ticks(ops));
  }

  /** After a successful sync the two elements stay in step through every run that spares both. */
  lemma SyncedStayInStep(list: seq<Blink>, source: word, target: word, ops: seq<Op>)
    requires var i, j := FindFrom(list, source), FindFrom(list, target);
             && i < |list| && j < |list|
             && SparedBy(Synced(list, source, target), i, ops)
             && SparedBy(Synced(list, source, target), j, ops)
    ensures var i, j := FindFrom(list, source), FindFrom(list, target);
            var synced := Synced(list, source, target);
            var after := Run(synced, ops);
            && MovedBy(synced, i, ops) < |after| && MovedBy(synced, j, ops) < |after|
            && InStep(after[MovedBy(synced, i, ops)], after[MovedBy(synced, j, ops)])
  {
    var i, j := FindFrom(list, source), FindFrom(list, target);
    var synced := Synced(list, source, target);
    ElementFollowsTicks(synced, i, ops);
    ElementFollowsTicks(synced, j, ops);
    StaysInStep(synced[i], synced[j], Ticks(ops));
  }

  // ---- When an element was added ----

  /** The list, and for each element the number of the call that added it. */
  datatype Dated = Dated(list: seq<Blink>, calls: seq<nat>)

  /** One more call, the `n`-th. */
  function After(h: Dated, op: Op, n: nat): (r: Dated)
    requires |h.calls| == |h.list|
    ensures |r.calls| == |r.list| && r.list == Apply(h.list, op)
  {
    Dated(Apply(h.list, op),
      match op
      case Add(b) => if Added(h.list, b) == h.list then h.calls else [n] + h.calls
      case Remove(arg) =>
        if FindFrom(h.list, Low(arg)) == |h.list| then h.calls else Without(h.calls, FindFrom(h.list, Low(arg)))
      case _ => h.calls)
  }

  /** The first `n` calls, from the empty list. */
  function History(ops: seq<Op>, n: nat): (h: Dated)
    requires n <= |ops|
    ensures |h.calls| == |h.list|
  {
    if n == 0 then Dated([], []) else After(History(ops, n - 1), ops[n - 1], n - 1)
  }

  lemma {:induction false} HistoryIsRun(ops: seq<Op>, n: nat)
    requires n <= |ops|
    ensures Run([], ops) == Run(History(ops, n).list, ops[n..])
    decreases n
  {
    if n > 0 {
      HistoryIsRun(ops, n - 1);
      assert ops[n - 1..][1..] == ops[n..];
    }
  }

  /** The numbers are those of adds with the element's location, the latest first. */
  predicate LatestFirst(ops: seq<Op>, n: nat, h: Dated)
    requires n <= |ops|
  {
    && |h.calls| == |h.list|
    && (forall k :: 0 <= k < |h.list| ==>
          h.calls[k] < n && ops[h.calls[k]].Add? && ops[h.calls[k]].b.location == h.list[k].location)
    && (forall j, k :: 0 <= j < k < |h.list| ==> h.calls[j] > h.calls[k])
  }

  lemma LatestAfterAdd(ops: seq<Op>, n: nat, h: Dated)
    requires n < |ops| && LatestFirst(ops, n, h) && ops[n].Add?
    ensures LatestFirst(ops, n + 1, Dated([Started(ops[n].b)] + h.list, [n] + h.calls))
  {
  }

  lemma LatestAfterRemove(ops: seq<Op>, n: nat, h: Dated, m: nat)
    requires n < |ops| && LatestFirst(ops, n, h) && m < |h.list|
    ensures LatestFirst(ops, n + 1, Dated(Without(h.list, m), Without(h.calls, m)))
  {
  }

  lemma LatestAfterChange(ops: seq<Op>, n: nat, h: Dated, now: seq<Blink>)
    requires n < |ops| && LatestFirst(ops, n, h) && |now| == |h.list|
    requires forall k :: 0 <= k < |now| ==> now[k].location == h.list[k].location
    ensures LatestFirst(ops, n + 1, Dated(now, h.calls))
  {
  }

  lemma LatestStep(ops: seq<Op>, n: nat, h: Dated)
    requires n < |ops| && LatestFirst(ops, n, h)
    ensures LatestFirst(ops, n + 1, After(h, ops[n], n))
  {
    match ops[n]
    case Add(b) =>
      LatestAfterAdd(ops, n, h);
      LatestAfterChange(ops, n, h, h.list);
    case Remove(arg) =>
      if FindFrom(h.list, Low(arg)) < |h.list| {
        LatestAfterRemove(ops, n, h, FindFrom(h.list, Low(arg)));
      } else {
        LatestAfterChange(ops, n, h, h.list);
      }
    case Sync(arg) => LatestAfterChange(ops, n, h, Synced(h.list, High(arg), Low(arg)));
    case Tick => LatestAfterChange(ops, n, h, AllTicked(h.list));
  }

  lemma HistoryStep(ops: seq<Op>, n: nat)
    requires n < |ops| && LatestFirst(ops, n, History(ops, n))
    ensures LatestFirst(ops, n + 1, History(ops, n + 1))
  {
    LatestStep(ops, n, History(ops, n));
    assert History(ops, n + 1) == After(History(ops, n), ops[n], n);
  }

  lemma {:induction false} EveryListLatestFirst(ops: seq<Op>, n: nat)
    requires n <= |ops|
    ensures LatestFirst(ops, n, History(ops, n))
    decreases n
  {
    if n > 0 {
      EveryListLatestFirst(ops, n - 1);
      HistoryStep(ops, n - 1);
    }
  }

  /** In every run a remove takes out, of all elements with the location, the one added last. */
  lemma RemovesLastAdded(ops: seq<Op>, location: word)
    ensures Run([], ops) == History(ops, |ops|).list
    ensures var Dated(list, calls) := History(ops, |ops|);
            var k := FindFrom(list, location);
            k < |list| ==>
              && Removed(list, location) == Without(list, k)
              && forall j :: 0 <= j < |list| && list[j].location == location ==> calls[j] <= calls[k]
  {
    HistoryIsRun(ops, |ops|);
    EveryListLatestFirst(ops, |ops|);
  }
}

/** The linked list of blinking characters inside its fixed pool (fish/blink.S, fish/fish.c). A pointer
    is 0 for NULL and i + 1 for the structure in slot i. */
module BlinkPool {
  import opened Basics
  import opened BlinkList

  datatype Slot = Slot(blink: Blink, next: nat)

  const ZEROED := Slot(Blink(0, 0, 0, 0, 0, 0, false), 0)

  /** The pointer to position `k` of the list. */
  function Link(order: seq<nat>, k: nat): nat {
    if k < |order| then order[k] + 1 else 0
  }

  ghost predicate InPool(order: seq<nat>) {
    forall k :: 0 <= k < |order| ==> order[k] < CELLS
  }

  /** The element at position `k` points at the one after it. */
  ghost predicate LinkAt(pool: seq<Slot>, order: seq<nat>, k: nat)
    requires |pool| == CELLS && InPool(order) && k < |order|
  {
    pool[order[k]].next == Link(order, k + 1)
  }

  /** The list that starts at `head` runs through exactly the slots of `order`, once each. */
  ghost predicate Linked(pool: seq<Slot>, head: nat, order: seq<nat>)
    requires |pool| == CELLS && InPool(order)
  {
    head == Link(order, 0) && forall k :: 0 <= k < |order| ==> LinkAt(pool, order, k)
  }

  predicate Taken(s: Slot) { s.blink.location != 0 }

  /** The slots on the list are exactly the ones the allocator sees as taken. */
  ghost predicate Owned(pool: seq<Slot>, order: seq<nat>)
    requires |pool| == CELLS
  {
    && (forall i :: 0 <= i < CELLS ==> (Taken(pool[i]) <==> i in order))
    && (forall i :: 0 <= i < CELLS ==> pool[i].blink.location < CELLS)
  }

  ghost predicate Intact(pool: seq<Slot>, head: nat, order: seq<nat>) {
    |pool| == CELLS && Distinct(order) && InPool(order) && Linked(pool, head, order) && Owned(pool, order)
  }

  ghost function Elements(pool: seq<Slot>, order: seq<nat>): (list: seq<Blink>)
    requires |pool| == CELLS && InPool(order)
    ensures |list| == |order|
  {
    seq(|order|, k requires 0 <= k < |order| => pool[order[k]].blink)
  }

  // ---- Conservation ----

  ghost function Free(pool: seq<Slot>): set<nat> { set i: nat | i < |pool| && !Taken(pool[i]) }

  /** Slots on the list and free slots add up to the whole pool. */
  lemma Conserved(pool: seq<Slot>, head: nat, order: seq<nat>)
    requires Intact(pool, head, order)
    ensures |order| + |Free(pool)| == CELLS
  {
    MembersSize(order);
    assert Members(order) + Free(pool) == UpTo(CELLS);
    assert Members(order) !! Free(pool);
  }

  /** The list ends: no slot is reached twice, so the last one holds NULL. */
  lemma Acyclic(pool: seq<Slot>, head: nat, order: seq<nat>)
    requires Intact(pool, head, order)
    ensures |order| <= CELLS
    ensures order != [] ==> pool[order[|order| - 1]].next == 0
    ensures forall j, k :: 0 <= j < |order| && 0 <= k < |order| ==>
              (pool[order[j]].next == order[k] + 1 <==> k == j + 1)
  {
    Conserved(pool, head, order);
    forall j | 0 <= j < |order| ensures pool[order[j]].next == Link(order, j + 1) {
      assert LinkAt(pool, order, j);
    }
  }

  // ---- What each operation does to the links ----

  lemma PushedFront(pool: seq<Slot>, head: nat, order: seq<nat>, i: nat, b: Blink)
    requires Intact(pool, head, order)
    requires i < CELLS && !Taken(pool[i])
    requires 0 < b.location < CELLS
    ensures Intact(pool[i := Slot(b, head)], i + 1, [i] + order)
    ensures Elements(pool[i := Slot(b, head)], [i] + order) == [b] + Elements(pool, order)
  {
    var pool' := pool[i := Slot(b, head)];
    var order' := [i] + order;
    assert i !in order;
    forall k | 0 <= k < |order'| ensures LinkAt(pool', order', k) {
      if k > 0 {
        assert order'[k] == order[k - 1];
        assert LinkAt(pool, order, k - 1);
      }
    }
    forall j | 0 <= j < CELLS ensures Taken(pool'[j]) <==> j in order' {
      assert j in order' <==> j == i || j in order;
    }
  }

  /** What is left of the list when position `k` is unlinked and its slot is freed. `cell` is the
      pointer that led to it: the head, or the next field of the element before. */
  function Unlinked(pool: seq<Slot>, order: seq<nat>, k: nat): seq<Slot>
    requires |pool| == CELLS && k < |order| && (forall j :: 0 <= j < |order| ==> order[j] < CELLS)
  {
    var bridged := if k == 0 then pool else
        pool[order[k - 1] := pool[order[k - 1]].(next := pool[order[k]].next)];
    bridged[order[k] := ZEROED]
  }

  function HeadWithout(pool: seq<Slot>, head: nat, order: seq<nat>, k: nat): nat
    requires |pool| == CELLS && k < |order| && (forall j :: 0 <= j < |order| ==> order[j] < CELLS)
  {
    if k == 0 then pool[order[0]].next else head
  }

  lemma WithoutAt(s: seq<nat>, k: nat)
    requires k < |s| && Distinct(s)
    ensures Distinct(Without(s, k))
    ensures forall i :: i in Without(s, k) <==> i in s && i != s[k]
  {
  }

  lemma UnlinkedSlot(pool: seq<Slot>, order: seq<nat>, k: nat, j: nat)
    requires |pool| == CELLS && InPool(order) && Distinct(order)
    requires k < |order| && j < |order| && j != k
    ensures Unlinked(pool, order, k)[order[j]] ==
            if j + 1 == k then pool[order[j]].(next := pool[order[k]].next) else pool[order[j]]
  {
  }

  lemma UnlinkedLinkAt(pool: seq<Slot>, head: nat, order: seq<nat>, k: nat, j: nat)
    requires Intact(pool, head, order) && k < |order| && j < |order| - 1
    ensures InPool(Without(order, k))
    ensures LinkAt(Unlinked(pool, order, k), Without(order, k), j)
  {
    var from := if j < k then j else j + 1;
    assert Without(order, k)[j] == order[from];
    assert LinkAt(pool, order, from);
    assert LinkAt(pool, order, k);
    UnlinkedSlot(pool, order, k, from);
  }

  lemma UnlinkedElements(pool: seq<Slot>, head: nat, order: seq<nat>, k: nat)
    requires Intact(pool, head, order) && k < |order|
    ensures InPool(Without(order, k))
    ensures Elements(Unlinked(pool, order, k), Without(order, k)) == Without(Elements(pool, order), k)
  {
  }

  lemma UnlinkedOwned(pool: seq<Slot>, head: nat, order: seq<nat>, k: nat)
    requires Intact(pool, head, order) && k < |order|
    ensures Owned(Unlinked(pool, order, k), Without(order, k))
  {
  }

  lemma UnlinkedIntact(pool: seq<Slot>, head: nat, order: seq<nat>, k: nat)
    requires Intact(pool, head, order) && k < |order|
    ensures Intact(Unlinked(pool, order, k), HeadWithout(pool, head, order, k), Without(order, k))
  {
    WithoutAt(order, k);
    UnlinkedOwned(pool, head, order, k);
    assert LinkAt(pool, order, k);
    forall j | 0 <= j < |order| - 1
      ensures InPool(Without(order, k)) && LinkAt(Unlinked(pool, order, k), Without(order, k), j)
    {
      UnlinkedLinkAt(pool, head, order, k, j);
    }
    assert InPool(Without(order, k));
  }

  /** Changing an element's timing keeps the list as it is. */
  lemma Updated(pool: seq<Slot>, head: nat, order: seq<nat>, k: nat, b: Blink)
    requires Intact(pool, head, order) && k < |order| && b.location == pool[order[k]].blink.location
    ensures Intact(pool[order[k] := pool[order[k]].(blink := b)], head, order)
    ensures Elements(pool[order[k] := pool[order[k]].(blink := b)], order) == Elements(pool, order)[k := b]
  {
    var pool' := pool[order[k] := pool[order[k]].(blink := b)];
    forall j | 0 <= j < |order| ensures LinkAt(pool', order, j) {
      assert LinkAt(pool, order, j);
    }
  }

  // ---- When an add makes a cycle ----

  /** Following the pointers from `head` comes to an end. */
  ghost predicate Ends(pool: seq<Slot>, head: nat)
    requires |pool| == CELLS
  {
    exists order :: InPool(order) && Linked(pool, head, order)
  }

  lemma {:induction false} NeverTwice(pool: seq<Slot>, head: nat, order: seq<nat>, x: nat, y: nat)
    requires |pool| == CELLS && InPool(order) && Linked(pool, head, order) && x < y < |order|
    ensures order[x] != order[y]
    decreases |order| - y
  {
    assert LinkAt(pool, order, x) && LinkAt(pool, order, y);
    if y + 1 < |order| {
      NeverTwice(pool, head, order, x + 1, y + 1);
    }
  }

  /** After an add in structure `i` the walk from the new head follows the list that was. */
  lemma {:induction false} FollowsOldList(pool: seq<Slot>, head: nat, order: seq<nat>, i: nat, b: Blink,
                                         j: nat, after: seq<nat>, m: nat)
    requires |pool| == CELLS && InPool(order) && Linked(pool, head, order) && i < CELLS
    requires j < |order| && order[j] == i && m <= j + 1
    requires InPool(after) && Linked(pool[i := Slot(b, head)], i + 1, after)
    ensures m < |after| && after[m] == if m == 0 then i else order[m - 1]
    decreases m
  {
    if m > 0 {
      FollowsOldList(pool, head, order, i, b, j, after, m - 1);
      assert LinkAt(pool[i := Slot(b, head)], after, m - 1);
      if m > 1 {
        NeverTwice(pool, head, order, m - 2, j);
        assert LinkAt(pool, order, m - 2);
      }
    }
  }

  /** An add keeps the list finite exactly when the structure it is given is not on the list. */
  lemma AddEndsIff(pool: seq<Slot>, head: nat, order: seq<nat>, i: nat, b: Blink)
    requires |pool| == CELLS && InPool(order) && Linked(pool, head, order) && i < CELLS
    ensures Ends(pool[i := Slot(b, head)], i + 1) <==> i !in order
  {
    var now := pool[i := Slot(b, head)];
    if i in order {
      var j :| 0 <= j < |order| && order[j] == i;
      forall after | InPool(after) && Linked(now, i + 1, after)
        ensures false
      {
        FollowsOldList(pool, head, order, i, b, j, after, 0);
        FollowsOldList(pool, head, order, i, b, j, after, j + 1);
        NeverTwice(now, i + 1, after, 0, j + 1);
      }
    } else {
      LinksPushed(pool, head, order, i, b);
    }
  }

  lemma LinksPushed(pool: seq<Slot>, head: nat, order: seq<nat>, i: nat, b: Blink)
    requires |pool| == CELLS && InPool(order) && Linked(pool, head, order) && i < CELLS && i !in order
    ensures InPool([i] + order) && Linked(pool[i := Slot(b, head)], i + 1, [i] + order)
  {
    var pool', order' := pool[i := Slot(b, head)], [i] + order;
    forall k | 0 <= k < |order'| ensures order'[k] < CELLS && (InPool(order') ==> LinkAt(pool', order', k)) {
      if k > 0 {
        assert order'[k] == order[k - 1];
        assert LinkAt(pool, order, k - 1);
      }
    }
  }

  /** The first structure with location 0, CELLS if there is none. */
  function FirstFree(pool: seq<Slot>): (i: nat)
    ensures i <= |pool|
    ensures i < |pool| ==> !Taken(pool[i])
    ensures forall k :: 0 <= k < i ==> Taken(pool[k])
  {
    if pool == [] || !Taken(pool[0]) then 0 else 1 + FirstFree(pool[1..])
  }

  lemma FirstFreeIs(pool: seq<Slot>, i: nat)
    requires i <= |pool| && (i < |pool| ==> !Taken(pool[i])) && forall k :: 0 <= k < i ==> Taken(pool[k])
    ensures FirstFree(pool) == i
  {
  }

  /** After an add at location 0 to a good list, the next add is given the same structure, which then
      points at itself: the list no longer ends. */
  lemma SecondAddLoops(pool: seq<Slot>, head: nat, order: seq<nat>, b: Blink, c: Blink)
    requires Intact(pool, head, order) && FirstFree(pool) < CELLS && b.location == 0
    ensures var i := FirstFree(pool);
            var once := pool[i := Slot(b, head)];
            var twice := once[i := Slot(c, i + 1)];
            && Ends(once, i + 1) && FirstFree(once) == i
            && twice[i].next == i + 1 && !Ends(twice, i + 1)
  {
    var i := FirstFree(pool);
    var once := pool[i := Slot(b, head)];
    LinksPushed(pool, head, order, i, b);
    FirstFreeIs(once, i);
    AddEndsIff(once, i + 1, [i] + order, i, c);
  }

  /** Where the pointer that leads to position `k` is kept. */
  function PointerTo(pool: seq<Slot>, head: nat, before: nat): nat
    requires |pool| == CELLS && before <= CELLS
  {
    if before == 0 then head else pool[before - 1].next
  }

  class Blinker {
    const pool: array<Slot>
    var head: nat
    ghost var order: seq<nat>

    ghost predicate Valid()
      reads this, pool
    {
      Intact(pool[..], head, order)
    }

    ghost function List(): (list: seq<Blink>)
      requires Valid()
      reads this, pool
    {
      Elements(pool[..], order)
    }

    constructor ()
      ensures Valid() && fresh(pool) && List() == []
    {
      pool := new Slot[CELLS](_ => ZEROED);
      head, order := 0, [];
    }

    /** The list ends, whatever the allocator takes its structures for. */
    ghost predicate Listed()
      reads this, pool
    {
      pool.Length == CELLS && InPool(order) && Linked(pool[..], head, order)
    }

    /** mp1_malloc: the first structure whose location is 0, or NULL. */
    method Malloc() returns (p: nat)
      requires pool.Length == CELLS
      ensures p == if FirstFree(pool[..]) < CELLS then FirstFree(pool[..]) + 1 else 0
    {
      var i := 0;
      while i < CELLS
        invariant 0 <= i <= CELLS
        invariant forall j :: 0 <= j < i ==> Taken(pool[j])
      {
        if pool[i].blink.location == 0 {
          FirstFreeIs(pool[..], i);
          return i + 1;
        }
        i := i + 1;
      }
      FirstFreeIs(pool[..], CELLS);
      p := 0;
    }

    /** mp1_ioctl_add, on any list that ends. The list goes on ending exactly when the structure that
        the allocator gives is not on it. On a good list it never is, and the list stays good unless
        the new location is 0. */
    method Add(b: Blink) returns (ret: int)
      requires Listed()
      modifies this, pool
      ensures ret == if b.location >= CELLS || FirstFree(old(pool[..])) == CELLS then -1 else 0
      ensures ret == -1 ==> pool[..] == old(pool[..]) && head == old(head) && order == old(order)
      ensures ret == 0 ==>
                var i := FirstFree(old(pool[..]));
                && pool[..] == old(pool[..])[i := Slot(Started(b), old(head))] && head == i + 1
                && (Ends(pool[..], head) <==> i !in old(order))
      ensures old(Valid()) ==> Listed() && (ret == -1 <==> b.location >= CELLS || old(|List()|) == CELLS)
      ensures old(Valid()) && (b.location != 0 || ret == -1) ==> Valid() && List() == Added(old(List()), b)
      ensures old(Valid()) && b.location != 0 && ret == 0 ==>
                List() == [b.(countdown := b.onLength, on := true)] + old(List())
    {
      ghost var was, before, linked := pool[..], head, order;
      if b.location >= CELLS {
        return -1;
      }
      var p := Malloc();
      if old(Valid()) {
        AllocatorSeesRoom(was, head, order);
      }
      if p == 0 {
        return -1;
      }
      AddEndsIff(was, before, linked, p - 1, Started(b));
      pool[p - 1] := Slot(Started(b), head);
      head := p;
      order := [p - 1] + order;
      assert pool[..] == was[p - 1 := Slot(Started(b), before)];
      AddKeepsGood(was, before, linked, b);
      ret := 0;
    }

    /** mp1_find_helper, returning the pointer found; `k` is its position in the list. */
    method Find(location: word) returns (p: nat, ghost k: nat)
      requires Valid()
      ensures k == FindFrom(List(), location)
      ensures p == Link(order, FindFrom(List(), location))
    {
      p, k := head, 0;
      while p != 0
        invariant k <= |order| && p == Link(order, k)
        invariant forall j :: 0 <= j < k ==> List()[j].location != location
        decreases |order| - k
      {
        if pool[p - 1].blink.location == location {
          FirstMatch(List(), location, k);
          return;
        }
        assert LinkAt(pool[..], order, k);
        p, k := pool[p - 1].next, k + 1;
      }
      FirstMatch(List(), location, k);
    }

    /** mp1_ioctl_remove */
    method Remove(arg: nat) returns (ret: int)
      requires Valid()
      modifies this, pool
      ensures Valid() && List() == Removed(old(List()), Low(arg))
      ensures ret == if SomeAt(old(List()), arg % 0x1_0000) then 0 else -1
      ensures ret == -1 ==> List() == old(List())
      ensures forall k :: FirstAt(old(List()), k, arg % 0x1_0000) ==> List() == old(List())[..k] + old(List())[k + 1..]
    {
      FindIsFirst(List(), Low(arg));
      RemovedFirst(List(), Low(arg));
      ghost var k;
      var p;
      p, k := Find(Low(arg));
      if p == 0 {
        return -1;
      }
      var before := FindPointer(p, k);
      Unlink(p, before, k);
      ret := 0;
    }

    /** The loop that looks for the pointer to unlink: `before` is 0 for the head, i + 1 for the next
        field of slot i. */
    method FindPointer(p: nat, ghost k: nat) returns (before: nat)
      requires Valid() && k < |order| && p == order[k] + 1
      ensures before == if k == 0 then 0 else order[k - 1] + 1
    {
      before := 0;
      ghost var m := 0;
      while PointerTo(pool[..], head, before) != p
        invariant m <= k && before == if m == 0 then 0 else order[m - 1] + 1
        invariant PointerTo(pool[..], head, before) == Link(order, m)
        decreases k - m
      {
        assert LinkAt(pool[..], order, m);
        before, m := PointerTo(pool[..], head, before), m + 1;
      }
      assert order[m] == order[k];
    }

    method Unlink(p: nat, before: nat, ghost k: nat)
      requires Valid() && k < |order| && p == order[k] + 1
      requires before == if k == 0 then 0 else order[k - 1] + 1
      modifies this, pool
      ensures Valid() && List() == Without(old(List()), k)
    {
      ghost var was, first := pool[..], head;
      UnlinkedIntact(was, head, order, k);
      UnlinkedElements(was, head, order, k);
      var next := pool[p - 1].next;
      if before == 0 {
        head := next;
      } else {
        pool[before - 1] := pool[before - 1].(next := next);
      }
      pool[p - 1] := ZEROED;
      assert pool[..] == Unlinked(was, order, k);
      order := Without(order, k);
    }

    /** mp1_ioctl_sync's two searches and its copy loop. */
    method CopyBetween(from: word, to: word) returns (ret: int)
      requires Valid()
      modifies this, pool
      ensures Valid() && List() == Synced(old(List()), from, to) && (ret == 0 || ret == -1)
      ensures ret == 0 <==> FindFrom(old(List()), from) < old(|List()|) && FindFrom(old(List()), to) < old(|List()|)
    {
      ghost var i, j;
      var source, target;
      source, i := Find(from);
      if source == 0 {
        return -1;
      }
      target, j := Find(to);
      if target == 0 {
        return -1;
      }
      ghost var was := pool[..];
      var synced := CopyTiming(pool[source - 1].blink, pool[target - 1].blink);
      Updated(was, head, order, j, synced);
      pool[target - 1] := pool[target - 1].(blink := synced);
      assert pool[..] == was[order[j] := was[order[j]].(blink := synced)];
      ret := 0;
    }

    /** mp1_ioctl_sync: the source is in the upper half of the argument, the target in the lower. */
    method Sync(arg: nat) returns (ret: int)
      requires Valid()
      modifies this, pool
      ensures Valid() && List() == Synced(old(List()), High(arg), Low(arg))
      ensures var source, target := arg / 0x1_0000 % 0x1_0000, arg % 0x1_0000;
              && (ret == 0 <==> SomeAt(old(List()), source) && SomeAt(old(List()), target))
              && (ret == 0 ==> SyncedOnly(old(List()), List(), source, target))
              && (ret != 0 ==> ret == -1 && List() == old(List()))
    {
      FindIsFirst(List(), High(arg));
      FindIsFirst(List(), Low(arg));
      SyncChangesTiming(List(), High(arg), Low(arg));
      ret := CopyBetween(High(arg), Low(arg));
    }

    /** The body of the tasklet's loop. */
    method TickSlot(p: nat, ghost k: nat)
      requires Valid() && k < |order| && p == order[k] + 1
      modifies pool
      ensures Valid() && List() == old(List())[k := Ticked(old(List()[k]))]
    {
      ghost var was := pool[..];
      var b := pool[p - 1].blink;
      Updated(was, head, order, k, Ticked(b));
      var countdown := Decremented(b.countdown);
      if StillCounting(countdown) {
        pool[p - 1] := pool[p - 1].(blink := b.(countdown := countdown));
      } else {
        var length := if b.on then b.offLength else b.onLength;
        pool[p - 1] := pool[p - 1].(blink := b.(countdown := length, on := !b.on));
      }
      assert pool[..] == was[order[k] := was[order[k]].(blink := Ticked(b))];
    }

    /** mp1_rtc_tasklet */
    method Tasklet()
      requires Valid()
      modifies pool
      ensures Valid() && List() == AllTicked(old(List()))
    {
      var p := head;
      ghost var k, list := 0, List();
      PartTickedEnds(list);
      while p != 0
        invariant Valid() && k <= |order| == |list| && p == Link(order, k)
        invariant List() == PartTicked(list, k)
        decreases |order| - k
      {
        TickSlot(p, k);
        PartTickedStep(list, k);
        assert LinkAt(pool[..], order, k);
        p, k := pool[p - 1].next, k + 1;
      }
    }

    /** Any call other than an add at location 0. */
    method Perform(op: Op)
      requires Valid() && (op.Add? ==> op.b.location != 0)
      modifies this, pool
      ensures Valid() && List() == Apply(old(List()), op)
    {
      match op {
        case Add(b) => var _ := Add(b);
        case Remove(arg) => var _ := Remove(arg);
        case Sync(arg) => var _ := Sync(arg);
        case Tick => Tasklet();
      }
    }

    /** Over every sequence of calls the pool stays a list of exactly the taken slots, and the list is
        the one the calls make of it. */
    method PerformAll(ops: seq<Op>)
      requires Valid()
      requires forall i :: 0 <= i < |ops| && ops[i].Add? ==> ops[i].b.location != 0
      modifies this, pool
      ensures Valid() && List() == Run(old(List()), ops)
      ensures |List()| + |Free(pool[..])| == CELLS
      decreases |ops|
    {
      if ops == [] {
        Conserved(pool[..], head, order);
      } else {
        Perform(ops[0]);
        PerformAll(ops[1..]);
      }
    }
  }

  /** The list when the tasklet has passed `k` elements. */
  function PartTicked(list: seq<Blink>, k: nat): (r: seq<Blink>)
    requires k <= |list|
    ensures |r| == |list|
  {
    seq(|list|, j requires 0 <= j < |list| => if j < k then Ticked(list[j]) else list[j])
  }

  lemma PartTickedStep(list: seq<Blink>, k: nat)
    requires k < |list|
    ensures PartTicked(list, k)[k] == list[k]
    ensures PartTicked(list, k)[k := Ticked(list[k])] == PartTicked(list, k + 1)
  {
  }

  lemma PartTickedEnds(list: seq<Blink>)
    ensures PartTicked(list, 0) == list
    ensures PartTicked(list, |list|) == AllTicked(list)
  {
  }

  lemma FirstMatch(list: seq<Blink>, location: word, k: nat)
    requires k <= |list| && (forall j :: 0 <= j < k ==> list[j].location != location)
    requires k < |list| ==> list[k].location == location
    ensures FindFrom(list, location) == k
  {
  }

  lemma AddKeepsGood(pool: seq<Slot>, head: nat, order: seq<nat>, b: Blink)
    requires |pool| == CELLS && InPool(order) && FirstFree(pool) < CELLS && b.location < CELLS
    ensures Intact(pool, head, order) ==>
              var i := FirstFree(pool);
              var now, list := pool[i := Slot(Started(b), head)], [i] + order;
              && InPool(list) && Linked(now, i + 1, list) && |order| < CELLS
              && (b.location != 0 ==>
                    Intact(now, i + 1, list) && Elements(now, list) == Added(Elements(pool, order), b))
  {
    if Intact(pool, head, order) {
      var i := FirstFree(pool);
      LinksPushed(pool, head, order, i, Started(b));
      AllocatorSeesRoom(pool, head, order);
      if b.location != 0 {
        PushedFront(pool, head, order, i, Started(b));
      }
    }
  }

  /** The allocator fails exactly when the list fills the pool. */
  lemma AllocatorSeesRoom(pool: seq<Slot>, head: nat, order: seq<nat>)
    requires Intact(pool, head, order)
    ensures |order| <= CELLS
    ensures |order| == CELLS <==> FirstFree(pool) == CELLS
  {
    Conserved(pool, head, order);
    if |order| == CELLS {
      assert Free(pool) == {};
      assert FirstFree(pool) !in Free(pool);
    } else {
      var i :| i in Free(pool);
      assert !Taken(pool[i]);
    }
  }
}

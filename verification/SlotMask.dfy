/** The running_processes byte and the loops that walk it: bit 7 - i of the mask stands for slot i. */
module SlotMask {
  const SLOTS := 8

  function Bit(i: nat): bv8
    requires i < SLOTS
  {
    if i == 0 then 0x80 else if i == 1 then 0x40 else if i == 2 then 0x20 else if i == 3 then 0x10
    else if i == 4 then 0x08 else if i == 5 then 0x04 else if i == 6 then 0x02 else 0x01
  }

  predicate Has(m: bv8, i: nat)
    requires i < SLOTS
  {
    m & Bit(i) != 0
  }

  function Slots(m: bv8): set<nat> {
    set i: nat | i < SLOTS && Has(m, i)
  }

  /** The slot `k` places after `p`, in cyclic order. */
  function After(p: nat, k: nat): (r: nat)
    requires p < SLOTS && k <= SLOTS
    ensures r < SLOTS && r == (p + k) % 8
  {
    if p + k < SLOTS then p + k else p + k - SLOTS
  }

  /** Shifting a slot's bit right gives the next slot's, and nothing after the last. */
  lemma NextBit(i: nat)
    requires i < SLOTS
    ensures Bit(i) >> 1 == if i == SLOTS - 1 then 0 else Bit(i + 1)
    ensures Bit(i) != 0
  {
  }

  lemma SetBit(m: bv8, i: nat)
    requires i < SLOTS
    ensures Slots(m | Bit(i)) == Slots(m) + {i}
  {
    forall j: nat | j < SLOTS ensures Has(m | Bit(i), j) <==> Has(m, j) || j == i {}
  }

  /** The loop that looks for the first clear bit and sets it. */
  method ClaimBit(running: bv8) returns (slot: nat, mask: bv8)
    ensures slot <= SLOTS && forall k :: 0 <= k < slot ==> Has(running, k)
    ensures slot < SLOTS ==> !Has(running, slot) && mask == running | Bit(slot)
    ensures slot == SLOTS ==> mask == running
  {
    var bitmask: bv8 := 0x80;
    for i := 0 to 8
      invariant i < 8 ==> bitmask == Bit(i)
      invariant forall k :: 0 <= k < i ==> Has(running, k)
    {
      if running & bitmask == 0 {
        return i, running | bitmask;
      }
      NextBit(i);
      bitmask := bitmask >> 1;
      if bitmask == 0 {
        return 8, running;
      }
    }
    return 8, running;
  }

  /** execute's search for a slot: the first clear bit of the mask, which it sets. */
  method ClaimSlot(running: bv8) returns (slot: nat, mask: bv8)
    ensures slot <= SLOTS && forall k :: 0 <= k < slot ==> k in Slots(running)
    ensures slot < SLOTS ==> slot !in Slots(running) && Slots(mask) == Slots(running) + {slot}
    ensures slot == SLOTS ==> mask == running
  {
    slot, mask := ClaimBit(running);
    if slot < SLOTS {
      SetBit(running, slot);
    }
  }

  /** The mask halt builds by shifting 0x7F right and feeding ones in from the left. */
  function AllBut(i: nat): bv8
    requires i < SLOTS
  {
    if i == 0 then 0x7F else (AllBut(i - 1) >> 1) + 0x80
  }

  lemma AllButIsComplement(i: nat)
    requires i < SLOTS
    ensures AllBut(i) == !Bit(i)
  {
  }

  lemma HasCleared(m: bv8, i: nat, j: nat)
    requires i < SLOTS && j < SLOTS
    ensures Has(m & !Bit(i), j) <==> Has(m, j) && j != i
  {
  }

  /** halt's clearing of one slot. */
  method ReleaseSlot(running: bv8, number: nat) returns (mask: bv8)
    requires number < SLOTS
    ensures Slots(mask) == Slots(running) - {number}
  {
    var bitmask: bv8 := 0x7F;
    for i := 0 to number
      invariant bitmask == AllBut(i)
    {
      bitmask := (bitmask >> 1) + 0x80;
    }
    AllButIsComplement(number);
    mask := running & bitmask;
    forall j: nat | j < SLOTS ensures Has(mask, j) <==> Has(running, j) && j != number {
      HasCleared(running, number, j);
    }
  }

  /** The scheduler looks at the mask without slot 0's bit. */
  lemma HasBelowTop(m: bv8, i: nat)
    requires i < SLOTS
    ensures Bit(i) & (m & 0x7F) != 0 <==> i in Slots(m) && i != 0
  {
  }

  predicate Eligible(used: set<nat>, blocked: seq<bool>, i: nat)
    requires |blocked| == SLOTS && i < SLOTS
  {
    i in used && i != 0 && !blocked[i]
  }

  /** None of the first `k - 1` slots after the current one is eligible. */
  predicate NoneBefore(used: set<nat>, blocked: seq<bool>, current: nat, k: nat)
    requires |blocked| == SLOTS && current < SLOTS && k <= SLOTS
  {
    forall j :: 1 <= j < k ==> !Eligible(used, blocked, After(current, j))
  }

  lemma NoneBeforeNext(used: set<nat>, blocked: seq<bool>, current: nat, k: nat)
    requires |blocked| == SLOTS && current < SLOTS && k < SLOTS
    requires NoneBefore(used, blocked, current, k) && !Eligible(used, blocked, After(current, k))
    ensures NoneBefore(used, blocked, current, k + 1)
  {
  }

  lemma NextSlotBit(current: nat, k: nat)
    requires current < SLOTS && k < SLOTS
    ensures (After(current, k) + 1) % 8 == After(current, k + 1)
    ensures After(current, k + 1) == current <==> k + 1 == SLOTS
    ensures var shifted := Bit(After(current, k)) >> 1;
            Bit(After(current, k + 1)) == if shifted == 0 then 0x80 else shifted
  {
  }

  /** 0x80 shifted right `n` times. */
  method ShiftedBit(n: nat) returns (bitmask: bv8)
    requires n < SLOTS
    ensures bitmask == Bit(n)
  {
    bitmask := 0x80;
    for i := 0 to n
      invariant bitmask == Bit(i)
    {
      NextBit(i);
      bitmask := bitmask >> 1;
    }
  }

  /** The scheduler's search: cyclically from the slot after the current one, for a running slot
      other than 0 that is not blocked; it stops `k` slots on, back at the current one if there
      is none. */
  method FindNext(running: bv8, current: nat, blocked: seq<bool>) returns (next: nat, ghost k: nat)
    requires current < SLOTS && |blocked| == SLOTS
    ensures 1 <= k <= SLOTS && next == After(current, k)
    ensures k < SLOTS ==> Eligible(Slots(running), blocked, next)
    ensures NoneBefore(Slots(running), blocked, current, k)
  {
    ghost var used := Slots(running);
    NextSlotBit(current, 0);
    next := (current + 1) % 8;
    var bitmask := ShiftedBit(next);
    k := 1;
    while next != current
      invariant 1 <= k <= SLOTS && next == After(current, k) && (next == current <==> k == SLOTS)
      invariant bitmask == Bit(next)
      invariant NoneBefore(used, blocked, current, k)
      decreases SLOTS - k
    {
      HasBelowTop(running, next);
      if bitmask & (running & 0x7F) != 0 {
        if !blocked[next] {
          break;
        }
      }
      NoneBeforeNext(used, blocked, current, k);
      NextSlotBit(current, k);
      next := (next + 1) % 8;
      bitmask := bitmask >> 1;
      if bitmask == 0 {
        bitmask := 0x80;
      }
      k := k + 1;
    }
  }

  /** 0xC0 marks exactly slots 0 and 1. */
  lemma OnlyFirstTwo(m: bv8)
    ensures m == 0xC0 <==> Slots(m) == {0, 1}
  {
    if Slots(m) == {0, 1} {
      assert forall j :: 0 <= j < SLOTS ==> (Has(m, j) <==> j in Slots(m));
      assert Has(m, 0) && Has(m, 1) && !Has(m, 2) && !Has(m, 3) && !Has(m, 4) && !Has(m, 5) && !Has(m, 6) && !Has(m, 7);
    }
    if m == 0xC0 {
      forall j: nat | j < SLOTS ensures Has(m, j) <==> j == 0 || j == 1 {}
    }
  }

  /** The mask at power-on and the mask bootup adds. */
  lemma BootMasks(m: bv8)
    ensures Slots(0x80) == {0}
    ensures Slots(m | 0x70) == Slots(m) + {1, 2, 3}
  {
    forall j: nat | j < SLOTS ensures Has(0x80, j) <==> j == 0 {}
    forall j: nat | j < SLOTS ensures Has(m | 0x70, j) <==> Has(m, j) || 1 <= j <= 3 {}
  }
}

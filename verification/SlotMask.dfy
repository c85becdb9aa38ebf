/**
  The 20-bit mask of proxied calls in flight: allocation takes the lowest clear bit, iteration
  peels off the lowest set bit with m & -m. Words are 32 bits wide, written as natural numbers.
*/
module SlotMask {

  const MAX_PROXIED_CALLS := 20

  // ---- bit operations on machine words ----

  function Pow2(k: nat): (r: nat)
    ensures r > 0
  {
    if k == 0 then 1 else 2 * Pow2(k - 1)
  }

  predicate Live(m: nat, i: nat) {
    if i == 0 then m % 2 == 1 else Live(m / 2, i - 1)
  }

  function And(a: nat, b: nat): nat {
    if a == 0 || b == 0 then 0
    else (if a % 2 == 1 && b % 2 == 1 then 1 else 0) + 2 * And(a / 2, b / 2)
  }

  function Or(a: nat, b: nat): nat
    decreases a + b
  {
    if a == 0 then b else if b == 0 then a
    else (if a % 2 == 1 || b % 2 == 1 then 1 else 0) + 2 * Or(a / 2, b / 2)
  }

  /** Complement of the low w bits. */
  function Not(m: nat, w: nat): nat {
    if w == 0 then 0 else (1 - m % 2) + 2 * Not(m / 2, w - 1)
  }

  /** Two's complement negation of a w-bit word. */
  function Neg(m: nat, w: nat): nat
    requires m < Pow2(w)
  {
    if m == 0 then 0 else Pow2(w) - m
  }

  /** ffs: one plus the position of the lowest set bit, or zero. */
  function Ffs(m: nat): (r: nat)
    ensures r == 0 <==> m == 0
  {
    if m == 0 then 0 else if m % 2 == 1 then 1 else 1 + Ffs(m / 2)
  }

  // ---- what they do to single bits ----

  lemma {:induction false} LiveZero(i: nat)
    ensures !Live(0, i)
  {
    if i == 0 {
    } else {
      LiveZero(i - 1);
    }
  }

  lemma {:induction false} LiveAnd(a: nat, b: nat, i: nat)
    ensures Live(And(a, b), i) <==> Live(a, i) && Live(b, i)
  {
    LiveZero(i);
    if i > 0 && a != 0 && b != 0 { LiveAnd(a / 2, b / 2, i - 1); }
  }

  lemma {:induction false} LiveOr(a: nat, b: nat, i: nat)
    ensures Live(Or(a, b), i) <==> Live(a, i) || Live(b, i)
  {
    LiveZero(i);
    if i > 0 && a != 0 && b != 0 { LiveOr(a / 2, b / 2, i - 1); }
  }

  lemma {:induction false} LiveNot(m: nat, w: nat, i: nat)
    ensures Live(Not(m, w), i) <==> i < w && !Live(m, i)
  {
    LiveZero(i);
    if i > 0 && w > 0 { LiveNot(m / 2, w - 1, i - 1); }
  }

  lemma {:induction false} LivePow2(k: nat, i: nat)
    ensures Live(Pow2(k), i) <==> i == k
  {
    if k == 0 {
      if i > 0 { LiveZero(i - 1); }
    } else if i > 0 {
      LivePow2(k - 1, i - 1);
    }
  }

  lemma {:induction false} FfsIsLowest(m: nat)
    requires m != 0
    ensures Live(m, Ffs(m) - 1) && forall j :: 0 <= j < Ffs(m) - 1 ==> !Live(m, j)
  {
    if m % 2 == 0 {
      FfsIsLowest(m / 2);
      forall j | 0 <= j < Ffs(m) - 1
        ensures !Live(m, j)
      {
        if j > 0 { assert !Live(m / 2, j - 1); }
      }
    }
  }

  /** A word without bits from w on is below 2^w. */
  lemma {:induction false} BelowPow2(m: nat, w: nat)
    requires forall i :: i >= w ==> !Live(m, i)
    ensures m < Pow2(w)
  {
    if w == 0 {
      if m != 0 { FfsIsLowest(m); }
    } else {
      forall i | i >= w - 1
        ensures !Live(m / 2, i)
      {
        assert !Live(m, i + 1);
      }
      BelowPow2(m / 2, w - 1);
    }
  }

  lemma {:induction false} AndComplement(m: nat, w: nat)
    requires m < Pow2(w)
    ensures And(m, Pow2(w) - 1 - m) == 0
  {
    if w == 0 {
    } else {
      AndComplement(m / 2, w - 1);
      assert (Pow2(w) - 1 - m) / 2 == Pow2(w - 1) - 1 - m / 2;
    }
  }

  /** m & -m isolates the lowest set bit. */
  lemma {:induction false} LowBit(m: nat, w: nat)
    requires 0 < m < Pow2(w)
    ensures And(m, Neg(m, w)) == Pow2(Ffs(m) - 1)
  {
    var n := Neg(m, w);
    if m % 2 == 1 {
      assert n / 2 == Pow2(w - 1) - 1 - m / 2;
      AndComplement(m / 2, w - 1);
    } else {
      assert n / 2 == Neg(m / 2, w - 1);
      LowBit(m / 2, w - 1);
    }
  }

  lemma {:induction false} FfsPow2(k: nat)
    ensures Ffs(Pow2(k)) == k + 1
  {
    if k == 0 {
    } else {
      FfsPow2(k - 1);
    }
  }

  // ---- the mask as a set of slots ----

  type Slot = i: nat | i < 20

  /** The mask is a 20-bit field. */
  ghost predicate Narrow(m: nat) {
    forall i :: i >= 20 ==> !Live(m, i)
  }

  function AllSlots(): set<nat> {
    set i: nat | 0 <= i < 20 && Small(i)
  }

  predicate Small(i: nat) {
    i < 20
  }

  function Slots(m: nat): set<nat> {
    set i: nat | 0 <= i < 20 && Live(m, i)
  }

  lemma AllSlotsCount(n: nat)
    requires n <= 20
    ensures |set i: nat | 0 <= i < n && Small(i)| == n
  {
    if n > 0 {
      AllSlotsCount(n - 1);
      assert (set i: nat | 0 <= i < n && Small(i)) == (set i: nat | 0 <= i < n - 1 && Small(i)) + {n - 1};
    }
  }

  lemma SubsetCount(a: set<nat>, b: set<nat>)
    requires a <= b
    ensures |a| <= |b| && (|a| == |b| ==> a == b)
  {
    if |a| > 0 {
      var x :| x in a;
      SubsetCount(a - {x}, b - {x});
    }
  }

  /** All 20 slots are live exactly when 20 slots are live. */
  lemma FullWhenTwenty(m: nat)
    ensures Slots(m) == AllSlots() <==> |Slots(m)| == MAX_PROXIED_CALLS
  {
    AllSlotsCount(20);
    assert Slots(m) <= AllSlots();
    SubsetCount(Slots(m), AllSlots());
  }

  /** wsu_proxied_call_new: the slot taken is the least free one, and there is none exactly when
      20 calls are in flight. */
  method New(m: nat) returns (ok: bool, slot: Slot, m': nat)
    requires Narrow(m)
    ensures Narrow(m')
    ensures !ok <==> |Slots(m)| == MAX_PROXIED_CALLS
    ensures ok ==> slot !in Slots(m) && Slots(m') == Slots(m) + {slot}
    ensures ok ==> forall i: nat :: i < slot ==> i in Slots(m)
    ensures !ok ==> m' == m
  {
    var free := Not(m, 32);
    var idx := Ffs(free);
    FullWhenTwenty(m);
    forall i: nat
      ensures Live(free, i) <==> i < 32 && !Live(m, i)
    {
      LiveNot(m, 32, i);
    }
    if free != 0 { FfsIsLowest(free); } else { LiveZero(20); }
    if idx == 0 || idx > MAX_PROXIED_CALLS {
      assert forall i: nat :: i < 20 ==> !Live(free, i);
      return false, 0, m;
    }
    ok, slot := true, idx - 1;
    assert forall i: nat :: i < slot ==> !Live(free, i);
    m' := Or(m, Pow2(slot));
    forall i: nat
      ensures Live(m', i) <==> Live(m, i) || i == slot
    {
      LiveOr(m, Pow2(slot), i);
      LivePow2(slot, i);
    }
  }

  /** wsu_proxied_call_free undoes it. */
  method Free(m: nat, slot: Slot) returns (m': nat)
    requires Narrow(m)
    ensures Narrow(m') && Slots(m') == Slots(m) - {slot}
  {
    m' := And(m, Not(Pow2(slot), 32));
    ClearSlot(m, slot);
  }

  lemma ClearBit(m: nat, slot: Slot)
    requires Narrow(m)
    ensures forall i: nat :: Live(And(m, Not(Pow2(slot), 32)), i) <==> Live(m, i) && i != slot
  {
    forall i: nat
      ensures Live(And(m, Not(Pow2(slot), 32)), i) <==> Live(m, i) && i != slot
    {
      LiveAnd(m, Not(Pow2(slot), 32), i);
      LiveNot(Pow2(slot), 32, i);
      LivePow2(slot, i);
    }
  }

  /** One round of wsu_proxied_call_foreach: the lowest live slot and the mask without it. */
  method Peel(mask: nat) returns (slot: Slot, rest: nat)
    requires Narrow(mask) && mask != 0
    ensures slot in Slots(mask) && forall i :: i in Slots(mask) ==> slot <= i
    ensures Narrow(rest) && Slots(rest) == Slots(mask) - {slot}
  {
    LowSlot(mask);
    var low := And(mask, Neg(mask, 32));
    slot := Ffs(low) - 1;
    rest := And(mask, Not(low, 32));
    ClearSlot(mask, slot);
  }

  lemma ClearSlot(m: nat, slot: Slot)
    requires Narrow(m)
    ensures var rest := And(m, Not(Pow2(slot), 32));
            Narrow(rest) && Slots(rest) == Slots(m) - {slot}
  {
    ClearBit(m, slot);
  }

  lemma LowSlot(mask: nat)
    requires Narrow(mask) && mask != 0
    ensures mask < Pow2(32)
    ensures var low := And(mask, Neg(mask, 32));
            var slot := Ffs(low) - 1;
            0 <= slot < 20 && low == Pow2(slot) && Live(mask, slot) && forall i :: 0 <= i < slot ==> !Live(mask, i)
  {
    BelowPow2(mask, 32);
    LowBit(mask, 32);
    FfsPow2(Ffs(mask) - 1);
    FfsIsLowest(mask);
  }

  lemma NoSlots(m: nat)
    requires Narrow(m)
    ensures m == 0 <==> Slots(m) == {}
  {
    if m != 0 {
      FfsIsLowest(m);
      assert Ffs(m) - 1 in Slots(m);
    } else {
      forall i: nat ensures !Live(0, i) { LiveZero(i); }
    }
  }

  /** wsu_proxied_call_foreach visits each live slot exactly once, in increasing order. */
  method Visit(m: nat) returns (order: seq<Slot>)
    requires Narrow(m)
    ensures forall i, j :: 0 <= i < j < |order| ==> order[i] < order[j]
    ensures forall s: Slot :: s in Slots(m) <==> s in order
  {
    var mask := m;
    order := [];
    while mask != 0
      invariant Narrow(mask)
      invariant forall i, j :: 0 <= i < j < |order| ==> order[i] < order[j]
      invariant forall i, s :: 0 <= i < |order| && s in Slots(mask) ==> order[i] < s
      invariant forall s: Slot :: s in Slots(m) <==> s in order || s in Slots(mask)
      decreases Slots(mask)
    {
      var slot;
      slot, mask := Peel(mask);
      order := order + [slot];
    }
    NoSlots(mask);
  }
}

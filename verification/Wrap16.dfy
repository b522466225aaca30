/** Wrapping 16-bit sequence numbers, and the unbounded numbers they stand for.

    A program value of type `u16` is the residue, modulo 65536, of an unbounded number that only the
    proofs know. Everything that relates the two lives here.
 */
module Wrap16 {

  const MODULUS := 65536
  const HALF := 32768

  type u16 = x: int | 0 <= x < MODULUS

  /** The 16-bit form of an unbounded number. */
  function Wrap(k: int): u16 {
    k % MODULUS
  }

  lemma WrapDifference(a: int, b: int)
    ensures Wrap(Wrap(a) - Wrap(b)) == Wrap(a - b)
  {
  }

  lemma WrapPlus(a: int, n: int)
    ensures Wrap(Wrap(a) + n) == Wrap(a + n)
  {
  }

  /** Adding the wrapped distance to a 16-bit value arrives at that value. */
  lemma WrapAhead(a: int, sequence: u16)
    ensures Wrap(a + Wrap(sequence - Wrap(a))) == sequence
  {
  }

  predicate SequenceGreaterThan(s1: u16, s2: u16) {
    (s1 > s2 && s1 - s2 <= HALF) || (s1 < s2 && s2 - s1 > HALF)
  }

  predicate SequenceLessThan(s1: u16, s2: u16) {
    SequenceGreaterThan(s2, s1)
  }

  /** The comparison is "ahead by less than half the number space"; at exactly half, the plain order of
      the two 16-bit values decides. */
  lemma SequenceGreaterThanIsAhead(s1: u16, s2: u16)
    ensures var ahead := Wrap(s1 - s2);
            SequenceGreaterThan(s1, s2) <==> 0 < ahead < HALF || (ahead == HALF && s1 > s2)
  {
  }

  /** Within half the number space the comparison is the order of the unbounded numbers, across every wrap. */
  lemma ComparisonAgrees(a: int, b: int)
    requires -HALF < a - b < HALF
    ensures SequenceGreaterThan(Wrap(a), Wrap(b)) <==> a > b
    ensures SequenceLessThan(Wrap(a), Wrap(b)) <==> a < b
  {
    var m := a / MODULUS - b / MODULUS;
    assert a - b == Wrap(a) - Wrap(b) + MODULUS * m;
  }

  /** The largest unbounded number below `top` whose 16-bit form is `sequence`. */
  function Below(top: int, sequence: u16): (k: int)
    ensures top - MODULUS <= k < top && Wrap(k) == sequence
  {
    top - 1 - (top - 1 - sequence) % MODULUS
  }

  lemma BelowIsUnique(top: int, k: int)
    requires top - MODULUS <= k < top
    ensures Below(top, Wrap(k)) == k
  {
  }

  /** How far behind `top` it is. */
  lemma BelowIsBehind(top: int, k: int)
    ensures Below(top, Wrap(k)) == top - 1 - Wrap(top - 1 - k)
  {
  }

  lemma WrapUnique(a: int, b: int)
    requires Wrap(a) == Wrap(b) && -MODULUS < a - b < MODULUS
    ensures a == b
  {
  }

  /** Two numbers with the same 16-bit form are equal or at least the whole number space apart. */
  lemma WrapStep(a: int, b: int)
    requires Wrap(a) == Wrap(b) && a < b
    ensures b >= a + MODULUS
  {
  }

  // ---- Slots of a ring -----------------------------------------------------------------------

  /** Where a ring of `capacity` entries keeps number `k`: numbers 0 to `capacity - 1` fill it, and the
      pattern repeats in both directions. */
  function Slot(k: int, capacity: nat): (i: nat)
    requires capacity > 0
    ensures i < capacity
    decreases k < 0, if k < 0 then -k else k
  {
    if k < 0 then Slot(k + capacity, capacity)
    else if k < capacity then k
    else Slot(k - capacity, capacity)
  }

  /** The program computes a slot as a remainder. */
  lemma {:induction false} SlotIsRemainder(k: int, capacity: nat)
    requires capacity > 0
    ensures Slot(k, capacity) == k % capacity
    decreases k < 0, if k < 0 then -k else k
  {
    if k < 0 {
      SlotIsRemainder(k + capacity, capacity);
      RemainderShift(k, capacity, 1);
    } else if k < capacity {
      DivisionIsUnique(k, capacity, 0, k);
    } else {
      SlotIsRemainder(k - capacity, capacity);
      RemainderShift(k, capacity, -1);
    }
  }

  lemma SmallMultipleIsZero(q: int, m: int)
    requires m > 0 && -m < q * m < m
    ensures q == 0
  {
    assert q >= 1 ==> q * m >= m;
    assert q <= -1 ==> q * m <= -m;
  }

  lemma DivisionIsUnique(x: int, m: nat, q: int, r: int)
    requires m > 0 && 0 <= r < m && x == q * m + r
    ensures x % m == r && x / m == q
  {
    var d := x / m - q;
    assert x == (x / m) * m + x % m;
    assert d * m == r - x % m by {
      assert (x / m) * m - q * m == d * m;
    }
    SmallMultipleIsZero(d, m);
  }

  /** Sizes for which the slot of a number does not depend on how often the number space has wrapped. */
  predicate RingCapacity(size: nat) {
    2 <= size <= HALF && Slot(MODULUS, size) == 0
  }

  /** Adding a multiple of the capacity does not change the remainder. */
  lemma RemainderShift(k: int, capacity: nat, times: int)
    requires capacity > 0
    ensures (k + times * capacity) % capacity == k % capacity
  {
    assert k == (k / capacity) * capacity + k % capacity;
    assert k + times * capacity == (k / capacity + times) * capacity + k % capacity;
    DivisionIsUnique(k + times * capacity, capacity, k / capacity + times, k % capacity);
  }

  /** The slot can be computed from the 16-bit form. */
  lemma SlotOfWrap(k: int, capacity: nat)
    requires capacity > 0 && Slot(MODULUS, capacity) == 0
    ensures Slot(Wrap(k), capacity) == Slot(k, capacity)
  {
    SlotIsRemainder(MODULUS, capacity);
    var c := MODULUS / capacity;
    assert MODULUS == c * capacity;
    var w := k / MODULUS;
    assert k == Wrap(k) + MODULUS * w;
    assert MODULUS * w == (c * w) * capacity;
    RemainderShift(Wrap(k), capacity, c * w);
    SlotIsRemainder(k, capacity);
    SlotIsRemainder(Wrap(k), capacity);
  }

  /** Numbers closer than the capacity never share a slot. */
  lemma SlotIsInjective(a: int, b: int, capacity: nat)
    requires capacity > 0 && Slot(a, capacity) == Slot(b, capacity) && a - b < capacity && b - a < capacity
    ensures a == b
  {
    if a <= b {
      NearbySlotsDiffer(a, b, capacity);
    } else {
      NearbySlotsDiffer(b, a, capacity);
    }
  }

  lemma {:induction false} NearbySlotsDiffer(a: int, b: int, capacity: nat)
    requires capacity > 0 && a <= b < a + capacity && Slot(a, capacity) == Slot(b, capacity)
    ensures a == b
    decreases a < 0, if a < 0 then -a else a
  {
    if a < 0 {
      assert Slot(b + capacity, capacity) == Slot(b, capacity);
      NearbySlotsDiffer(a + capacity, b + capacity, capacity);
    } else if a >= capacity {
      NearbySlotsDiffer(a - capacity, b - capacity, capacity);
    }
  }

  /** The number in the last `capacity` numbers before `top` that lives in slot `i`. */
  ghost function InWindow(top: int, capacity: nat, i: nat): (k: int)
    requires i < capacity
    ensures top - capacity <= k < top && Slot(k, capacity) == i
  {
    var q := (top - 1 - i) / capacity;
    var k := top - 1 - (top - 1 - i) % capacity;
    SlotIsRemainder(k, capacity);
    assert k == q * capacity + i;
    DivisionIsUnique(k, capacity, q, i);
    k
  }

  /** No two numbers of any window of `capacity` consecutive numbers share a slot, when slots are computed
      from 16-bit forms. */
  ghost predicate SlotsNeverClash(capacity: nat)
    requires capacity > 0
  {
    forall a: int, b: int :: a < b < a + capacity ==> Slot(Wrap(a), capacity) != Slot(Wrap(b), capacity)
  }

  lemma DivisorIsHalfAtMost(capacity: nat)
    requires 2 <= capacity < MODULUS && MODULUS % capacity == 0
    ensures capacity <= HALF
  {
    var c := MODULUS / capacity;
    assert MODULUS == c * capacity;
    assert c <= 1 ==> c * capacity <= capacity;
    assert c >= 2 ==> c * capacity >= 2 * capacity;
  }

  lemma DivisorsNeverClash(capacity: nat)
    requires capacity > 0 && Slot(MODULUS, capacity) == 0
    ensures SlotsNeverClash(capacity)
  {
    forall a: int, b: int | a < b < a + capacity
      ensures Slot(Wrap(a), capacity) != Slot(Wrap(b), capacity)
    {
      SlotOfWrap(a, capacity);
      SlotOfWrap(b, capacity);
      if Slot(a, capacity) == Slot(b, capacity) {
        SlotIsInjective(a, b, capacity);
      }
    }
  }

  /** The last multiple of the size before the wrap clashes with the wrap itself. */
  lemma OtherSizesClash(capacity: nat)
    requires 2 <= capacity < MODULUS && MODULUS % capacity != 0
    ensures !SlotsNeverClash(capacity)
  {
    var a, b := MODULUS - MODULUS % capacity, MODULUS;
    assert a == (MODULUS / capacity) * capacity;
    DivisionIsUnique(a, capacity, MODULUS / capacity, 0);
    SlotIsRemainder(a, capacity);
    assert Wrap(a) == a && Wrap(b) == 0;
  }

  /** The ring sizes that survive a wrap of the number space are exactly the proper divisors of 65536. */
  lemma SlotsNeverClashIff(capacity: nat)
    requires 2 <= capacity < MODULUS
    ensures SlotsNeverClash(capacity) <==> RingCapacity(capacity)
  {
    SlotIsRemainder(MODULUS, capacity);
    if MODULUS % capacity == 0 {
      DivisorIsHalfAtMost(capacity);
      DivisorsNeverClash(capacity);
    } else {
      OtherSizesClash(capacity);
    }
  }
}

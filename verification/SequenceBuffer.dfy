/** The ring keyed by wrapping 16-bit sequence numbers, refining a sliding window over the integers. */
module SequenceBuffers {
  import opened Wrap16
  import opened Options

  /** The unbounded number that inserting `sequence` means to a ring that has seen everything below `top`:
      the one whose successor is nearest to `top`. Exactly half the number space away, the 16-bit order of
      the two values decides. */
  function InsertKey(top: int, sequence: u16): (k: int)
    ensures Wrap(k) == sequence && -HALF <= k + 1 - top <= HALF
  {
    var ahead := Wrap(sequence + 1 - top);
    if ahead < HALF || (ahead == HALF && Wrap(sequence + 1) > Wrap(top))
    then top + ahead - 1
    else top + ahead - 1 - MODULUS
  }

  /** Exactly the numbers within half the number space of the pointer are read as they are meant; at exactly half, the
      plain order of the two 16-bit values decides. */
  lemma InsertKeyIsMeantIff(top: int, k: int)
    ensures InsertKey(top, Wrap(k)) == k <==>
            || -HALF < k + 1 - top < HALF
            || (k + 1 - top == HALF && Wrap(k + 1) > Wrap(top))
            || (k + 1 - top == -HALF && Wrap(k + 1) < Wrap(top))
  {
    WrapPlus(k, 1 - top);
    WrapPlus(k, 1);
    if -HALF < k + 1 - top < HALF {
      InsertKeyIsTheNumberMeant(top, k);
    } else if k + 1 - top == HALF || k + 1 - top == -HALF {
      assert Wrap(Wrap(k) + 1 - top) == HALF;
      HalfAwayDiffers(k + 1, top);
    }
  }

  lemma HalfAwayDiffers(a: int, b: int)
    requires a - b == HALF || a - b == -HALF
    ensures Wrap(a) != Wrap(b)
  {
    if Wrap(a) == Wrap(b) {
      WrapUnique(a, b);
    }
  }

  lemma InsertKeyIsTheNumberMeant(top: int, k: int)
    requires -HALF < k + 1 - top < HALF
    ensures InsertKey(top, Wrap(k)) == k
  {
  }

  /** `view` without the numbers below `low`. */
  ghost function DropBelow<T>(view: map<int, T>, low: int): (r: map<int, T>) {
    map k | k in view && low <= k :: view[k]
  }

  class SequenceBuffer<T> {
    /** The 16-bit form of `top`. */
    var sequence: u16
    const entrySequence: array<Option<u16>>
    const entries: array<Option<T>>

    /** One past the most recent number inserted, counted without wrapping. */
    ghost var top: int
    /** The entries present, by unbounded number. */
    ghost var view: map<int, T>

    ghost function Repr(): set<object> {
      {this, entrySequence, entries}
    }

    twostate predicate Untouched()
      reads this, entrySequence, entries
    {
      unchanged(this, entrySequence, entries)
    }

    ghost predicate SlotAgrees(k: int)
      requires entrySequence.Length == entries.Length > 0
      reads this, entrySequence, entries
    {
      var i := Slot(k, entries.Length);
      match entrySequence[i]
      case None => k !in view
      case Some(s) => s == Wrap(k) && k in view && entries[i] == Some(view[k])
    }

    ghost predicate Valid()
      reads this, entrySequence, entries
    {
      && RingCapacity(entries.Length)
      && entrySequence.Length == entries.Length && entrySequence as object != entries
      && sequence == Wrap(top)
      && (forall k :: k in view ==> top - entries.Length <= k < top)
      && (forall k :: top - entries.Length <= k < top ==> SlotAgrees(k))
    }

    /** Any size can be built; the window is right for those that divide the number space. */
    constructor (size: nat)
      requires size <= 65535
      ensures RingCapacity(size) ==> Valid()
      ensures fresh(Repr()) && Capacity() == size && sequence == 0 && top == 0 && view == map[]
      ensures entrySequence.Length == size
      ensures forall i :: 0 <= i < size ==> entrySequence[i] == None && entries[i] == None
    {
      sequence := 0;
      entrySequence := new Option<u16>[size](_ => None);
      entries := new Option<T>[size](_ => None);
      top, view := 0, map[];
    }

    function Capacity(): nat {
      entries.Length
    }

    function SequenceIndex(sequence: u16): (i: nat)
      requires Capacity() > 0
      ensures i == Slot(sequence, Capacity())
    {
      SlotIsRemainder(sequence, Capacity());
      sequence % Capacity()
    }

    function SequencePointer(): (pointer: u16)
      requires Valid()
      reads this, entrySequence, entries
      ensures pointer == Wrap(top)
    {
      sequence
    }

    /** True exactly when the window holds a number with this 16-bit form. */
    predicate Exists(sequence: u16)
      requires Valid()
      reads this, entrySequence, entries
      ensures Exists(sequence) <==> Below(top, sequence) in view
    {
      LookupAgrees(sequence);
      entrySequence[SequenceIndex(sequence)] == Some(sequence)
    }

    /** True exactly when no number of the window uses the slot of `sequence`. */
    predicate Available(sequence: u16)
      requires Valid()
      reads this, entrySequence, entries
      ensures Available(sequence) <==> InWindow(top, Capacity(), Slot(sequence, Capacity())) !in view
    {
      assert SlotAgrees(InWindow(top, Capacity(), Slot(sequence, Capacity())));
      entrySequence[SequenceIndex(sequence)].None?
    }

    function Get(sequence: u16): (r: Option<T>)
      requires Valid()
      reads this, entrySequence, entries
      ensures var k := Below(top, sequence);
              r == if k in view then Some(view[k]) else None
    {
      LookupAgrees(sequence);
      if Exists(sequence) then entries[SequenceIndex(sequence)] else None
    }

    lemma LookupAgrees(sequence: u16)
      requires Valid()
      ensures var i := SequenceIndex(sequence);
              var k := Below(top, sequence);
              && (entrySequence[i] == Some(sequence) <==> k in view)
              && (k in view ==> i == Slot(k, Capacity()) && entries[i] == Some(view[k]))
    {
      var k := Below(top, sequence);
      var w := InWindow(top, Capacity(), SequenceIndex(sequence));
      SlotOfWrap(k, Capacity());
      assert SlotAgrees(w);
      if k in view {
        assert SlotAgrees(k);
      } else if entrySequence[SequenceIndex(sequence)] == Some(sequence) {
        WrapUnique(w, k);
      }
    }

    /** Forget everything. The entries themselves are left where they are. */
    method Reset()
      requires Valid()
      modifies this, entrySequence
      ensures Valid() && top == 0 && view == map[]
    {
      sequence := 0;
      for i := 0 to entrySequence.Length
        invariant sequence == 0
        invariant forall j :: 0 <= j < i ==> entrySequence[j] == None
      {
        entrySequence[i] := None;
      }
      top, view := 0, map[];
    }

    /** Take out the entry whose number has this 16-bit form, if there is one. */
    method Take(sequence: u16) returns (r: Option<T>)
      requires Valid()
      modifies this`view, entrySequence, entries
      ensures Valid()
      ensures var k := Below(top, sequence);
              && r == (if k in old(view) then Some(old(view)[k]) else None)
              && view == old(view) - {k}
    {
      ghost var k := Below(top, sequence);
      LookupAgrees(sequence);
      if Exists(sequence) {
        var index := SequenceIndex(sequence);
        r := entries[index];
        entrySequence[index] := None;
        entries[index] := None;
        view := view - {k};
        forall j | top - Capacity() <= j < top
          ensures SlotAgrees(j)
        {
          if j != k && Slot(j, Capacity()) == index {
            SlotIsInjective(j, k, Capacity());
          }
          assert old(SlotAgrees(j));
        }
      } else {
        r := None;
        assert view == view - {k};
      }
    }

    /** Replace the entry whose number has this 16-bit form, as the program does through `get_mut`. */
    method Update(sequence: u16, value: T)
      requires Valid() && Exists(sequence)
      modifies this`view, entries
      ensures Valid()
      ensures view == old(view)[Below(top, sequence) := value]
    {
      ghost var k := Below(top, sequence);
      LookupAgrees(sequence);
      var index := SequenceIndex(sequence);
      entries[index] := Some(value);
      view := view[k := value];
      forall j | top - Capacity() <= j < top
        ensures SlotAgrees(j)
      {
        if j != k && Slot(j, Capacity()) == index {
          SlotIsInjective(j, k, Capacity());
        }
        assert old(SlotAgrees(j));
      }
    }

    /** Insert at the number nearest to the pointer. The insertion is refused exactly when that number is
        older than the window; otherwise the window slides forward if needed, dropping what falls out. */
    method InsertWith(sequence: u16, value: T) returns (ok: bool)
      requires Valid()
      modifies this, entrySequence, entries
      ensures Valid()
      ensures var k := InsertKey(old(top), sequence);
              && ok == (old(top) - Capacity() <= k)
              && (ok ==> && top == (if k < old(top) then old(top) else k + 1)
                         && view == DropBelow(old(view), top - Capacity())[k := value])
              && (!ok ==> top == old(top) && view == old(view))
    {
      ghost var k := InsertKey(top, sequence);
      InsertComparisons(top, sequence, Capacity());
      if SequenceGreaterThan(Wrap(sequence + 1), this.sequence) {
        Advance(sequence, k);
      } else if SequenceLessThan(sequence, Wrap(this.sequence - Wrap(Capacity()))) {
        return false;
      } else {
        assert DropBelow(view, top - Capacity()) == view;
      }
      Write(sequence, value, k);
      ok := true;
    }

    /** Everything `Valid` says, except about the slot of `hole`. */
    ghost predicate ValidExcept(hole: int)
      reads this, entrySequence, entries
    {
      && RingCapacity(entries.Length)
      && entrySequence.Length == entries.Length && entrySequence as object != entries
      && sequence == Wrap(top)
      && (forall k :: k in view ==> top - entries.Length <= k < top)
      && (forall k :: top - entries.Length <= k < top && k != hole ==> SlotAgrees(k))
    }

    /** Slide the window so that `k` becomes its newest number. */
    method Advance(sequence: u16, ghost k: int)
      requires Valid() && sequence == Wrap(k) && top <= k <= top + HALF
      modifies this, entrySequence
      ensures ValidExcept(k) && top == k + 1 && view == DropBelow(old(view), top - Capacity())
    {
      ghost var keep := KeptSlots(k);
      RemoveEntries(this.sequence, sequence, k, keep);
      this.sequence := Wrap(sequence + 1);
      WrapPlus(k, 1);
      ghost var before := top;
      top, view := k + 1, DropBelow(view, k + 1 - Capacity());
      forall j | top - Capacity() <= j < k
        ensures SlotAgrees(j)
      {
        if j < before {
          assert old(SlotAgrees(j));
        }
      }
    }

    method Write(sequence: u16, value: T, ghost k: int)
      requires ValidExcept(k) && sequence == Wrap(k) && top - Capacity() <= k < top
      modifies this`view, entrySequence, entries
      ensures Valid() && view == old(view)[k := value]
    {
      var index := SequenceIndex(sequence);
      SlotOfWrap(k, Capacity());
      entrySequence[index] := Some(sequence);
      entries[index] := Some(value);
      view := view[k := value];
      forall j | top - Capacity() <= j < top && j != k
        ensures SlotAgrees(j)
      {
        if Slot(j, Capacity()) == index {
          SlotIsInjective(j, k, Capacity());
        }
        assert old(SlotAgrees(j));
      }
    }

    /** The slots of the numbers that stay in the window when `k` is inserted. */
    ghost function KeptSlots(k: int): (keep: set<nat>)
      requires RingCapacity(Capacity())
      reads this
      ensures forall j :: k - Capacity() < j < top ==> Slot(j, Capacity()) in keep
      ensures forall j :: top <= j <= k && k - top < Capacity() ==> Slot(j, Capacity()) !in keep
      ensures k - top >= Capacity() ==> keep == {}
    {
      var keep := set j | k - Capacity() < j < top :: Slot(j, Capacity());
      assert forall j :: top <= j <= k && k - top < Capacity() ==> Slot(j, Capacity()) !in keep by {
        forall j, w | top <= j <= k && k - Capacity() < w < top && Slot(j, Capacity()) == Slot(w, Capacity())
          ensures false
        {
          SlotIsInjective(j, w, Capacity());
        }
      }
      keep
    }

    /** What the two comparisons of an insertion decide. */
    static lemma InsertComparisons(top: int, sequence: u16, capacity: nat)
      requires 2 <= capacity <= HALF
      ensures var k := InsertKey(top, sequence);
              && (SequenceGreaterThan(Wrap(sequence + 1), Wrap(top)) <==> top <= k)
              && (k < top ==> (SequenceLessThan(sequence, Wrap(Wrap(top) - Wrap(capacity))) <==> k < top - capacity))
    {
      var k := InsertKey(top, sequence);
      SequenceGreaterThanIsAhead(Wrap(sequence + 1), Wrap(top));
      WrapDifference(sequence + 1, top);
      if k < top {
        WrapDifference(top, capacity);
        ComparisonAgrees(k, top - capacity);
      }
    }

    /** Clear the slots the pointer moves over on its way from `top` to just past `k`, leaving alone the
        slots of `keep`.

        On a wrap the unwrapped end is one short, because 65535 and not 65536 is added: the slot of `k`
        itself is then left alone. It is the slot the caller writes next. */
    method RemoveEntries(startSequence: u16, endSequence: u16, ghost k: int, ghost keep: set<nat>)
      requires RingCapacity(entries.Length) && entrySequence.Length == entries.Length
      requires startSequence == Wrap(top) && endSequence == Wrap(k) && top <= k <= top + HALF
      requires k - top < Capacity() ==> forall j :: top <= j <= k ==> Slot(j, Capacity()) !in keep
      requires k - top >= Capacity() ==> keep == {}
      modifies entrySequence
      ensures forall j :: top <= j < k ==> entrySequence[Slot(j, Capacity())] == None
      ensures forall i :: i in keep && i < Capacity() ==> entrySequence[i] == old(entrySequence[i])
    {
      var start, end: nat := startSequence, endSequence;
      if end < start {
        end := end + 65535;
      }
      UnwrappedSpan(top, k);
      if end - start < Capacity() {
        for sequence := start to end + 1
          invariant forall j :: top <= j < top + (sequence - start) ==> entrySequence[Slot(j, Capacity())] == None
          invariant forall i :: i in keep && i < Capacity() ==> entrySequence[i] == old(entrySequence[i])
        {
          var index := sequence % Capacity();
          SlotIsRemainder(sequence, Capacity());
          SameSlotWhenUnwrapped(top, sequence - start);
          assert index == Slot(top + (sequence - start), Capacity());
          entrySequence[index] := None;
        }
      } else {
        for i := 0 to entrySequence.Length
          invariant forall j :: 0 <= j < i ==> entrySequence[j] == None
        {
          entrySequence[i] := None;
        }
      }
    }

    static lemma UnwrappedSpan(top: int, k: int)
      requires top <= k < top + MODULUS
      ensures var s, e := Wrap(top), Wrap(k);
              if e < s then e + 65535 - s == k - top - 1 else e - s == k - top
    {
    }

    lemma SameSlotWhenUnwrapped(from: int, n: nat)
      requires RingCapacity(Capacity())
      ensures Slot(Wrap(from) + n, Capacity()) == Slot(from + n, Capacity())
    {
      WrapPlus(from, n);
      SlotOfWrap(Wrap(from) + n, Capacity());
      SlotOfWrap(from + n, Capacity());
    }
  }
}

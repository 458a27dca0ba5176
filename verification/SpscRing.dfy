/** The ring object used from one thread at a time: a bounded FIFO for any history of the wrapping counters. */
module SpscRing {
  import opened RingMath

  datatype Slot<T> = Slot(sequence: nat, data: T)

  /** What a slot holds when its logical number is k and `released` items have left the ring. */
  ghost predicate SlotOk<T>(slot: Slot<T>, k: nat, released: nat, items: seq<T>) {
    if released <= k < released + |items|
    then slot == Slot((k + 1) % TWO64, items[k - released])
    else slot.sequence == k % TWO64
  }

  /** The slots of one window of `|slots|` consecutive numbers. */
  ghost predicate Window<T>(slots: seq<Slot<T>>, released: nat, items: seq<T>) {
    |slots| > 0 && forall k: nat | released <= k < released + |slots| :: SlotOk(slots[k % |slots|], k, released, items)
  }

  lemma OtherSlot(n: nat, j: nat, k: nat)
    requires 0 < n && j <= k < j + n && j != k
    ensures j % n != k % n
  {
    if j % n == k % n {
      ModInjective(j, k, n);
    }
  }

  lemma PushWindow<T>(slots: seq<Slot<T>>, released: nat, items: seq<T>, item: T)
    requires Window(slots, released, items) && |items| < |slots|
    ensures var h := released + |items|;
      Window(slots[h % |slots| := Slot((h + 1) % TWO64, item)], released, items + [item])
  {
    var n, h := |slots|, released + |items|;
    var slots' := slots[h % n := Slot((h + 1) % TWO64, item)];
    forall k: nat | released <= k < released + n
      ensures SlotOk(slots'[k % n], k, released, items + [item])
    {
      assert SlotOk(slots[k % n], k, released, items);
      if k < h { OtherSlot(n, k, h); } else if k > h { OtherSlot(n, h, k); }
    }
  }

  lemma PopWindow<T>(slots: seq<Slot<T>>, released: nat, items: seq<T>)
    requires Window(slots, released, items) && 0 < |items| <= |slots|
    ensures var i := released % |slots|;
      Window(slots[i := slots[i].(sequence := (released + |slots|) % TWO64)], released + 1, items[1..])
  {
    var n := |slots|;
    var slots' := slots[released % n := slots[released % n].(sequence := (released + n) % TWO64)];
    forall k: nat | released + 1 <= k < released + 1 + n
      ensures SlotOk(slots'[k % n], k, released + 1, items[1..])
    {
      if k == released + n {
        ModShift(released, n);
      } else {
        assert SlotOk(slots[k % n], k, released, items);
        OtherSlot(n, released, k);
      }
    }
  }

  lemma WrapAdd(x: nat, d: nat)
    ensures (x % TWO64 + d) % TWO64 == (x + d) % TWO64
  {
    var q, r := DivMod(x, TWO64);
    var q', r' := DivMod(r + d, TWO64);
    assert TWO64 * q + TWO64 * q' == TWO64 * (q + q');
    ModUnique(x + d, TWO64, q + q', r');
  }

  lemma Close(x: nat, y: nat)
    requires x <= y < x + TWO64
    ensures x % TWO64 == y % TWO64 <==> x == y
  {
    if x % TWO64 == y % TWO64 {
      ModInjective(x, y, TWO64);
    }
  }

  /** The masked index of a wrapped counter. */
  lemma SlotIndex(capacity: nat, k: nat)
    requires IsCapacity(capacity)
    ensures capacity >= 2 && BitAnd(k % TWO64, capacity - 1) == k % capacity
  {
    var e :| 1 <= e <= 32 && capacity == Pow2(e);
    CapacityBounds(capacity);
    MaskIsMod(k % TWO64, e);
    WrapKeepsIndex(k, capacity);
  }

  class Ring<T(0)> {
    const capacity: nat
    const mask: nat
    const slots: array<Slot<T>>
    var headSeq: nat
    var tailSeq: nat
    ghost var released: nat
    ghost var contents: seq<T>

    ghost predicate Valid()
      reads this, slots
    {
      && IsCapacity(capacity) && mask + 1 == capacity == slots.Length && |contents| <= capacity
      && headSeq == (released + |contents|) % TWO64 && tailSeq == released % TWO64
      && Window(slots[..], released, contents)
    }

    /** The rounded capacity, and every slot numbered by its index. */
    constructor (request: nat)
      requires request <= MAX_CAPACITY
      ensures Valid() && contents == [] && capacity == RoundUp(request)
      ensures fresh(slots)
    {
      RoundUpIsLeast(request);
      CapacityBounds(RoundUp(request));
      capacity := RoundUp(request);
      mask := RoundUp(request) - 1;
      var blank: T := *;
      slots := new Slot<T>[RoundUp(request)](_ => Slot(0, blank));
      headSeq, tailSeq, released, contents := 0, 0, 0, [];
      new;
      var i := 0;
      while i < capacity
        modifies slots
        invariant 0 <= i <= capacity
        invariant forall k | 0 <= k < i :: slots[k].sequence == k
      {
        slots[i] := slots[i].(sequence := i);
        i := i + 1;
      }
      forall k: nat | 0 <= k < capacity
        ensures SlotOk(slots[..][k % capacity], k, 0, [])
      {
        ModUnique(k, capacity, 0, k);
        ModUnique(k, TWO64, 0, k);
      }
    }

    /** Refuses exactly when the ring is full. */
    method TryPush(item: T) returns (ok: bool)
      requires Valid()
      modifies this`headSeq, this`contents, slots
      ensures Valid() && ok == (|old(contents)| < capacity)
      ensures contents == if ok then old(contents) + [item] else old(contents)
    {
      ghost var h := released + |contents|;
      CheckPush(h);
      var index := BitAnd(headSeq, mask);
      if slots[index].sequence != headSeq {
        return false;
      }
      PushWindow(slots[..], released, contents, item);
      WrapAdd(h, 1);
      var next := (headSeq + 1) % TWO64;
      slots[index] := slots[index].(data := item);
      slots[index] := slots[index].(sequence := next);
      assert slots[..] == old(slots[..])[h % capacity := Slot((h + 1) % TWO64, item)];
      headSeq := next;
      contents := contents + [item];
      assert released + |contents| == h + 1;
      return true;
    }

    /** The slot the producer looks at is free exactly when the ring is not full. */
    lemma CheckPush(h: nat)
      requires Valid() && h == released + |contents|
      ensures BitAnd(headSeq, mask) == h % capacity
      ensures slots[h % capacity].sequence == headSeq <==> |contents| < capacity
    {
      SlotIndex(capacity, h);
      CapacityBounds(capacity);
      if |contents| == capacity {
        ModShift(released, capacity);
        assert SlotOk(slots[..][released % capacity], released, released, contents);
        Close(released + 1, h);
      } else {
        assert SlotOk(slots[..][h % capacity], h, released, contents);
      }
    }

    /** Refuses exactly when the ring is empty; the caller's variable is then left as it was. */
    method TryPop(before: T) returns (ok: bool, item: T)
      requires Valid()
      modifies this`tailSeq, this`released, this`contents, slots
      ensures Valid() && ok == (old(contents) != [])
      ensures contents == if ok then old(contents)[1..] else old(contents)
      ensures item == if ok then old(contents)[0] else before
    {
      item := before;
      CheckPop();
      var index := BitAnd(tailSeq, mask);
      var expected := (tailSeq + 1) % TWO64;
      if slots[index].sequence != expected {
        return false, item;
      }
      PopWindow(slots[..], released, contents);
      WrapAdd(released, 1);
      WrapAdd(released, capacity);
      assert SlotOk(slots[..][released % capacity], released, released, contents);
      item := slots[index].data;
      slots[index] := slots[index].(sequence := (tailSeq + capacity) % TWO64);
      assert slots[..] == old(slots[..])[index := old(slots[index]).(sequence := (released + capacity) % TWO64)];
      tailSeq := expected;
      released, contents := released + 1, contents[1..];
      return true, item;
    }

    lemma CheckPop()
      requires Valid()
      ensures BitAnd(tailSeq, mask) == released % capacity
      ensures slots[released % capacity].sequence == (tailSeq + 1) % TWO64 <==> contents != []
    {
      SlotIndex(capacity, released);
      WrapAdd(released, 1);
      assert SlotOk(slots[..][released % capacity], released, released, contents);
      Close(released, released + 1);
    }

    /** The unsigned difference of the two counters. */
    method Size() returns (n: nat)
      requires Valid()
      ensures n == |contents|
    {
      n := (headSeq + TWO64 - tailSeq) % TWO64;
      CapacityBounds(capacity);
      DifferenceIs(released, |contents|);
    }
  }

  /** Construction with the check of the request: above the largest safe capacity there is no ring. */
  method Create<T(0)>(request: nat) returns (ring: Ring?<T>)
    ensures ring == null <==> request > MAX_CAPACITY
    ensures ring != null ==> fresh(ring) && fresh(ring.slots) && ring.Valid() && ring.contents == []
    ensures ring != null ==> ring.capacity == RoundUp(request)
  {
    if request > MAX_CAPACITY {
      return null;
    }
    ring := new Ring<T>(request);
  }

  lemma DifferenceIs(x: nat, d: nat)
    requires d <= MAX_CAPACITY
    ensures ((x + d) % TWO64 + TWO64 - x % TWO64) % TWO64 == d
  {
    var q, r := DivMod(x, TWO64);
    var q', r' := DivMod(r + d, TWO64);
    assert TWO64 * q + TWO64 * q' == TWO64 * (q + q');
    ModUnique(x + d, TWO64, q + q', r');
  }
}

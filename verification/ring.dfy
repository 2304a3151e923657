/** The rings shared with the kernel (reactor.c): 32-bit counters that only grow, over a power of two of slots. */
module Rings {
  const WRAP := 0x1_0000_0000

  /** The counters' masks: slots are a power of two, so a mask is a remainder. */
  function Mod(x: nat, size: nat): (r: nat)
    requires size > 0
    ensures r < size
  {
    x % size
  }

  /** The slot of the k-th entry after a counter value. */
  function Slot(counter: nat, k: nat, size: nat): (i: nat)
    requires size > 0
    ensures i < size
  {
    Mod((counter + k) % WRAP, size)
  }

  lemma {:induction false} Far(d: int, size: int)
    requires size > 0 && d != 0
    ensures if d > 0 then d * size >= size else d * size <= -size
    decreases if d > 0 then d else -d
  {
    if d > 1 {
      Far(d - 1, size);
      assert (d - 1) * size == d * size - size;
    } else if d < -1 {
      Far(d + 1, size);
      assert (d + 1) * size == d * size + size;
    }
  }

  lemma RemainderUnique(x: nat, q: int, r: nat, size: nat)
    requires size > 0 && x == q * size + r && r < size
    ensures Mod(x, size) == r
  {
    var d := x / size - q;
    assert x == x / size * size + x % size;
    assert d * size == x / size * size - q * size;
    if d != 0 {
      Far(d, size);
    }
  }

  /** Counters wrap at a multiple of the number of slots, so wrapping does not change a slot. */
  lemma WrapKeepsSlot(x: nat, size: nat)
    requires size > 0 && Mod(WRAP, size) == 0
    ensures Mod(x % WRAP, size) == Mod(x, size)
  {
    var m, w := x % WRAP, x / WRAP;
    var q := WRAP / size;
    assert WRAP == q * size;
    assert m == m / size * size + m % size;
    assert w * WRAP == (w * q) * size by {
      assert w * (q * size) == (w * q) * size;
    }
    assert x == (w * q + m / size) * size + m % size by {
      assert (w * q + m / size) * size == (w * q) * size + m / size * size;
    }
    RemainderUnique(x, w * q + m / size, m % size, size);
  }

  lemma CloseDiffer(a: nat, b: nat, size: nat)
    requires size > 0 && a < b && b - a < size
    ensures Mod(a, size) != Mod(b, size)
  {
    var p, q := a / size, b / size;
    assert a == p * size + Mod(a, size) && b == q * size + Mod(b, size);
    assert (q - p) * size == q * size - p * size;
    if q != p {
      Far(q - p, size);
    }
  }

  /** Fewer entries than slots never share a slot. */
  lemma Apart(counter: nat, k: nat, n: nat, size: nat)
    requires size > 0 && Mod(WRAP, size) == 0 && k < n && n - k < size
    ensures Slot(counter, k, size) != Slot(counter, n, size)
  {
    hide Mod;
    WrapKeepsSlot(counter + k, size);
    WrapKeepsSlot(counter + n, size);
    CloseDiffer(counter + k, counter + n, size);
  }

  class Ring<T(0)> {
    const slots: array<T>
    var head: nat
    var tail: nat

    ghost predicate Valid()
      reads this
    {
      && slots.Length > 0 && Mod(WRAP, slots.Length) == 0
      && head < WRAP && tail < WRAP
      && Count() <= slots.Length
    }

    /** tail - head in 32-bit arithmetic. */
    function Count(): (n: nat)
      reads this
      ensures n < WRAP
    {
      (tail - head) % WRAP
    }

    /** The k-th entry. */
    ghost function Entry(k: nat): T
      requires Valid()
      reads this, slots
    {
      slots[Slot(head, k, slots.Length)]
    }

    /** The entries from head to tail, oldest first. */
    ghost function Contents(): (s: seq<T>)
      requires Valid()
      reads this, slots
      ensures |s| == Count()
    {
      seq(Count(), k requires 0 <= k && Valid() reads this, slots => Entry(k))
    }

    constructor (size: nat)
      requires size > 0 && Mod(WRAP, size) == 0
      ensures Valid() && fresh(slots) && slots.Length == size && Contents() == []
    {
      slots := new T[size];
      head, tail := 0, 0;
    }

    /** reactor_ring_sqe, when there is room: the next slot is filled. */
    method Push(x: T)
      requires Valid() && Count() < slots.Length < WRAP
      modifies this`tail, slots
      ensures Valid() && Contents() == old(Contents()) + [x]
    {
      hide Mod;
      ghost var n := Count();
      ghost var was := Contents();
      assert tail == (head + n) % WRAP;
      var i := Mod(tail, slots.Length);
      assert i == Slot(head, n, slots.Length);
      forall k: nat | k < n ensures Slot(head, k, slots.Length) != i {
        Apart(head, k, n, slots.Length);
      }
      hide Slot;
      slots[i] := x;
      tail := (tail + 1) % WRAP;
      assert Count() == n + 1;
      assert forall k: nat :: k < n ==> Entry(k) == was[k];
      assert Entry(n) == x;
    }

    /** reactor_ring_cqe: the oldest entry, or none. */
    method Pop() returns (found: bool, x: T)
      requires Valid()
      modifies this`head
      ensures Valid()
      ensures found == (old(Contents()) != [])
      ensures found ==> [x] + Contents() == old(Contents())
      ensures !found ==> head == old(head)
    {
      hide Mod;
      if head == tail {
        x := slots[0];
        return false, x;
      }
      ghost var was := Contents();
      assert Mod(head, slots.Length) == Slot(head, 0, slots.Length);
      found, x := true, slots[Mod(head, slots.Length)];
      ghost var first := head;
      head := (head + 1) % WRAP;
      assert Count() == |was| - 1;
      forall k: nat | k < Count() ensures Entry(k) == was[k + 1] {
        assert (head + k) % WRAP == (first + (k + 1)) % WRAP;
      }
      assert x == was[0];
    }
  }
}

/** The 16-slot ring buffer that both the per-stream encoder (frames) and
    the recorder (pose rows) use to hand items from the capture thread to
    the recording thread. The mutex around the counters is modelled by the
    atomicity of each method: an interleaving is a sequence of calls. */
module FrameRing {
  import opened Common

  /** Number of slots; the source insists on a power of two. */
  const Capacity: nat := 16

  /** The write counter is a `uint32_t` and wraps at 2^32. */
  const IndexModulus: nat := 0x1_0000_0000

  lemma CapacityFacts()
    ensures IsPow2(Capacity) && IndexModulus % Capacity == 0
  {
  }

  /** Taking the write counter modulo 2^32 does not change its slot, since
      16 divides 2^32. */
  lemma {:induction false} WrapKeepsSlot(b: nat)
    ensures (b % IndexModulus) % Capacity == b % Capacity
  {
    var q := b / IndexModulus;
    var r := b % IndexModulus;
    assert b == q * IndexModulus + r;
    assert q * IndexModulus == (q * 0x1000_0000) * Capacity;
    ModAddMultiple(r, q * 0x1000_0000);
  }

  lemma ModAddMultiple(r: nat, m: nat)
    ensures (m * Capacity + r) % Capacity == r % Capacity
  {
  }

  /** The slot the consumer moves to after `next`: the increment followed
      by the `< size() ? : 0` wrap. */
  function Advance(next: nat): (r: nat)
    requires next < Capacity
    ensures r < Capacity && r % Capacity == (next + 1) % Capacity
  {
    if next + 1 < Capacity then next + 1 else 0
  }

  class Ring<T(0)> {
    /** `std::array<..., 16> m_dataBuffer` */
    const slots: array<T>
    /** `m_bufferIndex`: total number of commits, modulo 2^32 */
    var bufferIndex: nat
    /** `m_remainingBuffers`: items committed and not yet consumed */
    var remaining: int
    /** `m_nextBufferIndex`: the slot the consumer reads next */
    var nextIndex: nat

    /** The committed, unconsumed items in FIFO order. */
    ghost var Contents: seq<T>
    /** No slot holding an unconsumed item has been overwritten. Once the
        producer stages or commits with 16 items outstanding this becomes
        false and the ring no longer behaves as a FIFO queue. */
    ghost var Intact: bool

    ghost predicate Valid()
      reads this, slots
    {
      slots.Length == Capacity &&
      bufferIndex < IndexModulus && nextIndex < Capacity && 0 <= remaining &&
      (nextIndex + remaining) % Capacity == bufferIndex % Capacity &&
      (Intact ==>
        remaining <= Capacity && |Contents| == remaining &&
        forall k :: 0 <= k < remaining ==> slots[(nextIndex + k) % Capacity] == Contents[k])
    }

    /** The counters of a default-constructed owner are all 0. */
    constructor ()
      ensures Valid() && fresh(slots)
      ensures bufferIndex == 0 && remaining == 0 && nextIndex == 0
      ensures Contents == [] && Intact
    {
      slots := new T[Capacity];
      bufferIndex, remaining, nextIndex := 0, 0, 0;
      Contents, Intact := [], true;
    }

    /** The item in the slot the producer writes next. */
    function WriteSlot(): T
      reads this, slots
      requires Valid()
    {
      slots[bufferIndex % Capacity]
    }

    /** Producer, first half: write the slot `bufferIndex mod 16` without
        publishing it. */
    method Stage(x: T)
      requires Valid()
      modifies slots, this`Intact
      ensures Valid()
      ensures slots[..] == old(slots[..])[old(bufferIndex) % Capacity := x]
      ensures Intact == (old(Intact) && remaining < Capacity)
    {
      ghost var i := bufferIndex % Capacity;
      slots[bufferIndex % Capacity] := x;
      Intact := Intact && remaining < Capacity;
      if Intact {
        forall k | 0 <= k < remaining
          ensures slots[(nextIndex + k) % Capacity] == Contents[k]
        {
          SlotsDiffer(nextIndex, k, remaining);
        }
      }
    }

    /** Producer, second half: increment the write counter (with its uint32
        wrap) and the outstanding count; report whether the count has just
        become exactly 15, the source's overflow condition. */
    method Commit() returns (overflow: bool)
      requires Valid()
      modifies this`bufferIndex, this`remaining, this`Contents, this`Intact
      ensures Valid()
      ensures bufferIndex == (old(bufferIndex) + 1) % IndexModulus
      ensures remaining == old(remaining) + 1 && nextIndex == old(nextIndex)
      ensures overflow <==> remaining == Capacity - 1
      ensures Intact == (old(Intact) && old(remaining) < Capacity)
      ensures Intact ==> Contents == old(Contents) + [slots[old(bufferIndex) % Capacity]]
    {
      ghost var b := bufferIndex;
      WrapKeepsSlot(b + 1);
      ModShift(nextIndex + remaining, b, 1);
      Contents := Contents + [slots[bufferIndex % Capacity]];
      Intact := Intact && remaining < Capacity;
      bufferIndex := (bufferIndex + 1) % IndexModulus;
      remaining := remaining + 1;
      overflow := remaining == Capacity - 1;
    }

    /** Producer, both halves: what `Encoder::addFrame` does once the
        frame is ready. */
    method Push(x: T) returns (overflow: bool)
      requires Valid()
      modifies slots, this`bufferIndex, this`remaining, this`Contents, this`Intact
      ensures Valid()
      ensures slots[..] == old(slots[..])[old(bufferIndex) % Capacity := x]
      ensures bufferIndex == (old(bufferIndex) + 1) % IndexModulus
      ensures remaining == old(remaining) + 1 && nextIndex == old(nextIndex)
      ensures overflow <==> remaining == Capacity - 1
      ensures Intact == (old(Intact) && old(remaining) < Capacity)
      ensures Intact ==> Contents == old(Contents) + [x]
    {
      Stage(x);
      overflow := Commit();
    }

    /** Consumer: if anything is outstanding, decrement the count, take the
        slot `nextIndex` and advance it with the wrap to 0 at 16; otherwise
        report that there is nothing to take. */
    method TryPop() returns (item: Option<T>)
      requires Valid()
      modifies this`remaining, this`nextIndex, this`Contents
      ensures Valid()
      ensures item.Some? <==> old(remaining) != 0
      ensures item.Some? ==> item.value == slots[old(nextIndex)] &&
                             remaining == old(remaining) - 1 && nextIndex == Advance(old(nextIndex))
      ensures item.None? ==> remaining == old(remaining) && nextIndex == old(nextIndex)
      ensures Intact && item.Some? ==> item.value == old(Contents)[0] && Contents == old(Contents)[1..]
      ensures item.None? ==> Contents == old(Contents)
    {
      if remaining == 0 {
        return None;
      }
      remaining := remaining - 1;
      var x := slots[nextIndex];
      ghost var n := nextIndex;
      nextIndex := Advance(nextIndex);
      ModShift(nextIndex, n + 1, remaining);
      if Intact {
        ghost var c := Contents;
        assert (n + 0) % Capacity == n;
        assert x == c[0];
        Contents := c[1..];
        forall k | 0 <= k < remaining
          ensures slots[(nextIndex + k) % Capacity] == Contents[k]
        {
          ModShift(nextIndex, n + 1, k);
          assert slots[(n + (k + 1)) % Capacity] == c[k + 1];
        }
      }
      item := Some(x);
    }

    /** Consumer that moves the item out (`move(m_dataBuffer[...])`):
        as `TryPop`, and the slot it read is left holding `hole`. */
    method TryMove(hole: T) returns (item: Option<T>)
      requires Valid()
      modifies slots, this`remaining, this`nextIndex, this`Contents
      ensures Valid()
      ensures item.Some? <==> old(remaining) != 0
      ensures item.Some? ==> item.value == old(slots[nextIndex]) && slots[..] == old(slots[..])[old(nextIndex) := hole] &&
                             remaining == old(remaining) - 1 && nextIndex == Advance(old(nextIndex))
      ensures item.None? ==> remaining == old(remaining) && nextIndex == old(nextIndex) && slots[..] == old(slots[..])
      ensures Intact && item.Some? ==> item.value == old(Contents)[0] && Contents == old(Contents)[1..]
      ensures item.None? ==> Contents == old(Contents)
    {
      var n := nextIndex;
      item := TryPop();
      if item.Some? {
        slots[n] := hole;
        if Intact {
          forall k | 0 <= k < remaining
            ensures slots[(nextIndex + k) % Capacity] == Contents[k]
          {
            Vacated(n, k);
          }
        }
      }
    }

    /** A step that leaves the ring and its slots alone keeps it valid. */
    twostate lemma Kept()
      requires old(Valid()) && unchanged(this, slots)
      ensures Valid()
    {
    }

    /** `Encoder::init` zeroes all three counters on success. */
    method Reset()
      requires Valid()
      modifies this`bufferIndex, this`remaining, this`nextIndex, this`Contents, this`Intact
      ensures Valid()
      ensures bufferIndex == 0 && remaining == 0 && nextIndex == 0
      ensures Contents == [] && Intact
    {
      bufferIndex, remaining, nextIndex := 0, 0, 0;
      Contents, Intact := [], true;
    }
  }

  /** While fewer than 16 items are outstanding, the write slot differs
      from every slot holding one of them. */
  lemma SlotsDiffer(next: nat, k: nat, r: nat)
    requires next < Capacity && k < r < Capacity
    ensures (next + k) % Capacity != (next + r) % Capacity
  {
  }

  /** The slot just read holds none of the at most 15 items left behind it. */
  lemma Vacated(n: nat, k: nat)
    requires n < Capacity && k < Capacity - 1
    ensures (Advance(n) + k) % Capacity != n
  {
  }

  /** A consumer that moves items out reads the hole once the producer has
      lapped it: after 17 items are pushed with none taken, the slot of the
      first was overwritten by the seventeenth, so the 17th move finds the
      hole the first move left there. */
  method LappedReadIsHole() returns (last: Option<Option<int>>)
    ensures last == Some(None)
  {
    var r := new Ring<Option<int>>();
    var i := 0;
    while i < Capacity + 1
      invariant 0 <= i <= Capacity + 1 && r.Valid()
      invariant r.remaining == i && r.nextIndex == 0 && r.bufferIndex == i
    {
      var _ := r.Push(Some(i));
      i := i + 1;
    }
    var j := 0;
    while j < Capacity
      invariant 0 <= j <= Capacity && r.Valid()
      invariant r.remaining == Capacity + 1 - j && r.nextIndex == j % Capacity
      invariant forall k :: 0 <= k < j ==> r.slots[k] == None
    {
      var _ := r.TryMove(None);
      j := j + 1;
    }
    last := r.TryMove(None);
  }

  /** With the write counter fixed, the number of items left determines
      the consumer's slot: taking `r0 - r1` items moves it that far. */
  lemma ConsumerPosition(n0: int, r0: int, n1: int, r1: int, b: int)
    requires 0 <= n0 < Capacity && 0 <= n1 < Capacity && r1 <= r0
    requires (n0 + r0) % Capacity == b % Capacity && (n1 + r1) % Capacity == b % Capacity
    ensures n1 == (n0 + (r0 - r1)) % Capacity
  {
    ModShift(n1 + r1, n0 + r0, -r1);
  }

  /** Equal residues stay equal when the same amount is added. */
  lemma ModShift(x: int, y: int, k: int)
    requires x % Capacity == y % Capacity
    ensures (x + k) % Capacity == (y + k) % Capacity
  {
    var qx, qy := x / Capacity, y / Capacity;
    assert x == qx * Capacity + x % Capacity;
    assert y == qy * Capacity + y % Capacity;
    assert x + k == (qx - qy) * Capacity + (y + k);
    ModAddMultipleInt(y + k, qx - qy);
  }

  lemma ModAddMultipleInt(r: int, m: int)
    ensures (m * Capacity + r) % Capacity == r % Capacity
  {
  }
}

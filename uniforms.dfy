/**
 * `UniformBufferChain`: one growable GPU buffer per frame slot for one kind
 * of uniform record. A buffer is modelled as an array of records (a buffer
 * of `n` records is `itemStride * n` bytes long); arrays keep the identity of
 * buffers, so a handle taken before a reallocation still denotes the old
 * buffer afterwards.
 */
module Uniforms {
  import opened FrameSlots

  /** The capacity `reallocateIfNeeded(for: index)` leaves, from capacity `capacity` and step `step`. */
  function GrownCapacity(capacity: nat, index: nat, step: nat): (r: nat)
    requires step > 0
    ensures index < capacity ==> r == capacity
    ensures index >= capacity ==> r % step == 0 && index < r <= index + step
    ensures r >= capacity && r > index
  {
    if index < capacity then capacity
    else
      var q := index / step;
      assert index == q * step + index % step;
      assert (q + 1) * step == q * step + step;
      MultipleOfStep(q + 1, step);
      (q + 1) * step
  }

  lemma MultipleOfStep(k: nat, step: nat)
    requires step > 0
    ensures (k * step) % step == 0
  {
    ModUnique(k * step, step, k, 0);
  }

  /**
   * Uploading the records of indices 0, 1, 2, ... one at a time ends at the
   * same capacity as growing straight to the last index: a capacity that is
   * a multiple of the step is only ever grown to the next multiple above the
   * index being written.
   */
  lemma {:induction false} GrowOneAtATime(capacity: nat, index: nat, step: nat)
    requires step > 0 && capacity % step == 0
    ensures GrownCapacity(GrownCapacity(capacity, index, step), index + 1, step)
         == GrownCapacity(capacity, index + 1, step)
  {
    var c1 := GrownCapacity(capacity, index, step);
    if index + 1 >= capacity && index + 1 < c1 {
      // index + 1 is past the old capacity but inside the grown one, so index itself was grown
      assert index >= capacity;
      var q := index / step;
      assert c1 == (q + 1) * step;
      assert index == q * step + index % step;
      assert index + 1 == q * step + (index % step + 1);
      assert index % step + 1 < step;
      assert (index + 1) / step == q by {
        DivUnique(index + 1, step, q, index % step + 1);
      }
    } else if index + 1 >= c1 {
      var q := (index + 1) / step;
      assert index + 1 >= capacity;
      if c1 != capacity {
        assert c1 % step == 0;
      }
    }
  }

  lemma DivUnique(x: int, m: int, q: int, r: int)
    requires m > 0 && 0 <= r < m && x == q * m + r
    ensures x / m == q
  {
    ModUnique(x, m, q, r);
    assert x == (x / m) * m + x % m;
    assert (x / m) * m == q * m;
  }

  class UniformBufferChain<T(0)> {
    /** `MemoryLayout<T>.stride`, in bytes. */
    const itemStride: nat
    const counter: SharedCounter
    const capacityStep: nat
    var buffers: seq<array<T>>
    var capacity: nat

    /** Every buffer the chain has allocated, the current ones among them. */
    ghost var Allocated: set<array<T>>

    /**
     * Either nothing has been allocated yet, or there is one buffer per ring
     * slot, all of them distinct and all `capacity` records long.
     */
    ghost predicate Valid()
      reads this
    {
      && (forall k :: 0 <= k < |buffers| ==> buffers[k] in Allocated)
      && itemStride > 0
      && counter.maxValue > 0
      && capacityStep >= 4
      && capacity % capacityStep == 0
      && (capacity == 0 ==> buffers == [])
      && (capacity > 0 ==> |buffers| == counter.maxValue)
      && (forall k :: 0 <= k < |buffers| ==> buffers[k].Length == capacity)
      && (forall j, k :: 0 <= j < k < |buffers| ==> buffers[j] != buffers[k])
    }

    constructor (counter: SharedCounter, itemStride: nat, capacityStep: int)
      requires itemStride > 0 && counter.maxValue > 0
      ensures Valid()
      ensures this.counter == counter && this.itemStride == itemStride
      ensures this.capacityStep == if capacityStep < 4 then 4 else capacityStep
      ensures buffers == [] && capacity == 0 && Allocated == {}
    {
      this.counter := counter;
      this.itemStride := itemStride;
      this.capacityStep := if capacityStep < 4 then 4 else capacityStep;
      buffers := [];
      capacity := 0;
      Allocated := {};
    }

    /** What a reallocation for `index` does to the buffers, relative to the state before it. */
    twostate predicate ReallocatedFor(index: nat)
      reads this
      requires old(Valid()) && Valid()
    {
      && old(Allocated) <= Allocated && fresh(Allocated - old(Allocated))
      && capacity == GrownCapacity(old(capacity), index, capacityStep)
      && (index < old(capacity) ==> buffers == old(buffers))
      && (index >= old(capacity) ==> forall k :: 0 <= k < |buffers| ==> fresh(buffers[k]))
    }

    /**
     * Grows every slot's buffer, together, to the next multiple of the step
     * above `index` when `index` is not below the capacity, copying each old
     * buffer's records to the same positions of its replacement.
     */
    method ReallocateIfNeeded(index: nat)
      requires Valid()
      modifies this
      ensures Valid() && ReallocatedFor(index)
      ensures forall k :: 0 <= k < |old(buffers)| ==> buffers[k][..old(capacity)] == old(buffers[k][..])
    {
      if index < capacity {
        return;
      }
      var newCapacity := (index / capacityStep + 1) * capacityStep;
      assert newCapacity == GrownCapacity(capacity, index, capacityStep);
      ghost var oldBuffers := buffers;
      var i := 0;
      while i < counter.maxValue
        invariant 0 <= i <= counter.maxValue
        invariant old(Allocated) <= Allocated && fresh(Allocated - old(Allocated))
        invariant forall k :: 0 <= k < |buffers| ==> buffers[k] in Allocated
        invariant capacity == old(capacity) && newCapacity > capacity
        invariant |buffers| == if i < |oldBuffers| then |oldBuffers| else i
        invariant forall k :: 0 <= k < i ==> fresh(buffers[k]) && buffers[k].Length == newCapacity
        invariant forall k :: i <= k < |buffers| ==> buffers[k] == oldBuffers[k]
        invariant forall k :: 0 <= k < i && k < |oldBuffers| ==> buffers[k][..capacity] == oldBuffers[k][..]
        invariant forall j, k :: 0 <= j < k < i ==> buffers[j] != buffers[k]
      {
        var buffer := new T[newCapacity];
        if i < |buffers| {
          var oldBuffer := buffers[i];
          forall j | 0 <= j < oldBuffer.Length {
            buffer[j] := oldBuffer[j];
          }
          assert buffer[..capacity] == oldBuffer[..];
          buffers := buffers[i := buffer];
        } else {
          buffers := buffers + [buffer];
        }
        Allocated := Allocated + {buffer};
        i := i + 1;
      }
      capacity := newCapacity;
    }

    /** `currentBuffer`: the buffer of the current slot, after making room for record 0. */
    method CurrentBuffer() returns (buffer: array<T>)
      requires Valid() && counter.Valid()
      modifies this
      ensures Valid() && ReallocatedFor(0)
      ensures forall k :: 0 <= k < |old(buffers)| ==> buffers[k][..old(capacity)] == old(buffers[k][..])
      ensures buffer == buffers[counter.currentValue] && buffer.Length == capacity > 0
    {
      ReallocateIfNeeded(0);
      buffer := buffers[counter.currentValue];
    }

    /** `offsetForItem(at:)`: the byte offset of record `index`, after making room for it. */
    method OffsetForItem(index: nat) returns (offset: nat)
      requires Valid()
      modifies this
      ensures Valid() && ReallocatedFor(index)
      ensures forall k :: 0 <= k < |old(buffers)| ==> buffers[k][..old(capacity)] == old(buffers[k][..])
      ensures offset == itemStride * index && index < capacity
    {
      ReallocateIfNeeded(index);
      offset := itemStride * index;
    }

    /** The buffer of ring slot `k`, when the buffers exist. */
    ghost function BufferAt(k: int): set<array<T>>
      reads this
    {
      if 0 <= k < |buffers| then {buffers[k]} else {}
    }

    /** The buffer of the current slot, when the buffers exist. */
    ghost function SlotBuffer(): set<array<T>>
      reads this, counter
    {
      BufferAt(counter.currentValue)
    }

    /** The buffer of the slot after the current one, which the next frame writes. */
    ghost function NextSlotBuffer(): set<array<T>>
      reads this, counter
      requires counter.Valid()
    {
      BufferAt(NextSlot(counter.currentValue, counter.maxValue))
    }

    /**
     * `setValue(_:at:)`: makes room for record `index`, then stores `value` at
     * that position of the current slot's buffer and nowhere else. A buffer
     * that the growth replaced keeps what it held.
     */
    method SetValue(value: T, index: nat)
      requires Valid() && counter.Valid()
      modifies this, SlotBuffer()
      ensures Valid() && ReallocatedFor(index)
      ensures buffers[counter.currentValue][index] == value
      ensures forall j :: 0 <= j < old(capacity) && j != index
                ==> buffers[counter.currentValue][j] == old(buffers[counter.currentValue][j])
      ensures forall k :: 0 <= k < |old(buffers)| && k != counter.currentValue
                ==> buffers[k][..old(capacity)] == old(buffers[k][..])
      ensures index >= old(capacity) ==>
                forall k :: 0 <= k < |old(buffers)| ==> old(buffers[k])[..] == old(buffers[k][..])
    {
      ReallocateIfNeeded(index);
      var buffer := buffers[counter.currentValue];
      buffer[index] := value;
    }
  }
}

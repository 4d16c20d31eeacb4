/**
 * `SharedCounter`: the frame-slot counter that every uniform buffer chain of
 * one renderer reads, so all of them select the same ring slot in a frame.
 */
module FrameSlots {

  /** The slot after `current` in a ring of `maxValue` slots. */
  function NextSlot(current: int, maxValue: int): (r: int)
    requires 0 <= current < maxValue
    ensures 0 <= r < maxValue
    ensures current + 1 < maxValue ==> r == current + 1
    ensures current + 1 == maxValue ==> r == 0
  {
    (current + 1) % maxValue
  }

  /** The slot reached from `current` after `n` ticks. */
  function AfterTicks(current: int, maxValue: int, n: nat): (r: int)
    requires 0 <= current < maxValue
    ensures 0 <= r < maxValue
  {
    if n == 0 then current else NextSlot(AfterTicks(current, maxValue, n - 1), maxValue)
  }

  lemma MulAtLeast(k: int, m: int)
    requires k >= 1 && m > 0
    ensures k * m >= m
  {
    assert k * m == (k - 1) * m + m;
    assert (k - 1) * m >= 0;
  }

  /** Euclidean division is unique: a quotient and remainder in range determine `%`. */
  lemma ModUnique(x: int, m: int, q: int, r: int)
    requires m > 0 && 0 <= r < m && x == q * m + r
    ensures x % m == r
  {
    var q', r' := x / m, x % m;
    assert x == q' * m + r';
    var k := q - q';
    assert k * m == q * m - q' * m;
    assert k * m == r' - r;
    if k >= 1 {
      MulAtLeast(k, m);
    } else if k <= -1 {
      MulAtLeast(-k, m);
    } else {
      assert k == 0;
    }
  }

  /** Adding one to `x` moves `x % m` one slot forward around the ring. */
  lemma ModSucc(x: int, m: int)
    requires m > 0
    ensures (x + 1) % m == NextSlot(x % m, m)
  {
    var q, r := x / m, x % m;
    assert x == q * m + r;
    if r + 1 < m {
      ModUnique(x + 1, m, q, r + 1);
    } else {
      assert (q + 1) * m == q * m + m;
      ModUnique(x + 1, m, q + 1, 0);
    }
  }

  /** `n` ticks move `n` slots forward around the ring. */
  lemma {:induction false} AfterTicksAdvances(current: int, maxValue: int, n: nat)
    requires 0 <= current < maxValue
    ensures AfterTicks(current, maxValue, n) == (current + n) % maxValue
  {
    if n == 0 {
      ModUnique(current, maxValue, 0, current);
    } else {
      AfterTicksAdvances(current, maxValue, n - 1);
      ModSucc(current + n - 1, maxValue);
    }
  }

  /** After `maxValue` ticks every slot has been used once and the counter is back where it started. */
  lemma FullRoundReturns(current: int, maxValue: int)
    requires 0 <= current < maxValue
    ensures AfterTicks(current, maxValue, maxValue) == current
  {
    AfterTicksAdvances(current, maxValue, maxValue);
    ModUnique(current + maxValue, maxValue, 1, current);
  }

  /** Fewer than `maxValue` ticks, but at least one, never bring the counter back to where it started. */
  lemma NoEarlyReturn(current: int, maxValue: int, n: nat)
    requires 0 <= current < maxValue && 0 < n < maxValue
    ensures AfterTicks(current, maxValue, n) != current
  {
    AfterTicksAdvances(current, maxValue, n);
    if current + n < maxValue {
      ModUnique(current + n, maxValue, 0, current + n);
    } else {
      ModUnique(current + n, maxValue, 1, current + n - maxValue);
    }
  }

  /** Ticking `i` times and then `j` times is ticking `i + j` times. */
  lemma {:induction false} AfterTicksCompose(current: int, maxValue: int, i: nat, j: nat)
    requires 0 <= current < maxValue
    ensures AfterTicks(current, maxValue, i + j) == AfterTicks(AfterTicks(current, maxValue, i), maxValue, j)
  {
    if j > 0 {
      AfterTicksCompose(current, maxValue, i, j - 1);
    }
  }

  /** The `maxValue` slots of one round from `current` are pairwise distinct, so each slot is used exactly once per round. */
  lemma RoundVisitsEachSlotOnce(current: int, maxValue: int)
    requires 0 <= current < maxValue
    ensures forall i: nat, j: nat :: i < j < maxValue ==> AfterTicks(current, maxValue, i) != AfterTicks(current, maxValue, j)
  {
    forall i: nat, j: nat | i < j < maxValue
      ensures AfterTicks(current, maxValue, i) != AfterTicks(current, maxValue, j)
    {
      AfterTicksCompose(current, maxValue, i, j - i);
      NoEarlyReturn(AfterTicks(current, maxValue, i), maxValue, j - i);
    }
  }

  class SharedCounter {
    const maxValue: int
    var currentValue: int

    ghost predicate Valid()
      reads this
    {
      0 <= currentValue < maxValue
    }

    /** `tick` divides by `maxValue`, so a counter is only usable with `maxValue > 0`. */
    constructor (maxValue: int)
      requires maxValue > 0
      ensures Valid()
      ensures this.maxValue == maxValue && currentValue == 0
    {
      this.maxValue := maxValue;
      currentValue := 0;
    }

    method Tick()
      requires Valid()
      modifies this
      ensures Valid()
      ensures currentValue == NextSlot(old(currentValue), maxValue)
    {
      currentValue := (currentValue + 1) % maxValue;
    }
  }
}

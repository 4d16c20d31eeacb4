/**
 * The input-event queue of Lemur (`InputManager`) and the reductions over an
 * array of events (`mouseDrag`, `scroll`, `isKeyDown`).
 *
 * Timestamps are seconds since 1970 and deltas are points; both are modelled
 * as exact reals, since the code only compares and adds them.
 */
module Input {
  import opened Wrappers

  newtype UInt16 = x: int | 0 <= x < 0x1_0000

  datatype MouseButtonType = Left | Right | Other

  datatype PointerType = Mouse(buttonType: MouseButtonType) | Touch(index: int)

  datatype Point = Point(x: real, y: real)

  datatype InputEventData =
    | PointerDown(pointerType: PointerType, localPoint: Point)
    | PointerUp(pointerType: PointerType, localPoint: Point)
    | PointerDrag(pointerType: PointerType, delta: Point)
    | Scroll(delta: Point)
    | KeyDown(keyCode: UInt16)
    | KeyUp(keyCode: UInt16)

  datatype InputEvent = InputEvent(timestamp: real, data: InputEventData)

  /** The length of the eviction window of `InputManager.add`, in seconds. */
  const EvictionWindow: real := 1.0

  // ---------------------------------------------------------------------------
  // Order-preserving selection

  /** `a` can be obtained from `b` by deleting elements, keeping the order of the rest. */
  predicate Subsequence<T(==)>(a: seq<T>, b: seq<T>)
    decreases |b|
  {
    if a == [] then true
    else if b == [] then false
    else if a[0] == b[0] then Subsequence(a[1..], b[1..])
    else Subsequence(a, b[1..])
  }

  /** Putting one more element in front of `b` keeps `a` a subsequence of it. */
  lemma {:induction false} SubsequenceOfTail<T>(a: seq<T>, b: seq<T>, x: T)
    requires Subsequence(a, b)
    ensures Subsequence(a, [x] + b)
    decreases |b|, 1
  {
    assert ([x] + b)[1..] == b;
    if a != [] && a[0] == x {
      DropHeadSubsequence(a, b);
    }
  }

  /** Dropping the first element of `a` keeps it a subsequence of `b`. */
  lemma {:induction false} DropHeadSubsequence<T>(a: seq<T>, b: seq<T>)
    requires a != [] && Subsequence(a, b)
    ensures Subsequence(a[1..], b)
    decreases |b|, 0
  {
    assert [b[0]] + b[1..] == b;
    if a[0] == b[0] {
      SubsequenceOfTail(a[1..], b[1..], b[0]);
    } else {
      DropHeadSubsequence(a, b[1..]);
      SubsequenceOfTail(a[1..], b[1..], b[0]);
    }
  }

  // ---------------------------------------------------------------------------
  // The filters used by `add` and `fetch`

  /** What survives `removeAll { $0.timestamp < cutoff }`. */
  function Evict(events: seq<InputEvent>, cutoff: real): (r: seq<InputEvent>)
    ensures forall e :: e in r <==> e in events && e.timestamp >= cutoff
    ensures |r| <= |events|
  {
    if events == [] then []
    else (if events[0].timestamp < cutoff then [] else [events[0]]) + Evict(events[1..], cutoff)
  }

  /** What `filter { $0.timestamp <= deadline }` returns. */
  function Due(events: seq<InputEvent>, deadline: real): (r: seq<InputEvent>)
    ensures forall e :: e in r <==> e in events && e.timestamp <= deadline
    ensures |r| <= |events|
  {
    if events == [] then []
    else (if events[0].timestamp <= deadline then [events[0]] else []) + Due(events[1..], deadline)
  }

  /** What survives `removeAll { $0.timestamp <= deadline }`. */
  function Pending(events: seq<InputEvent>, deadline: real): (r: seq<InputEvent>)
    ensures forall e :: e in r <==> e in events && e.timestamp > deadline
    ensures |r| <= |events|
  {
    if events == [] then []
    else (if events[0].timestamp <= deadline then [] else [events[0]]) + Pending(events[1..], deadline)
  }

  /**
   * What survives `removeAll { $0.timestamp < now - 1 }` when the clock is
   * read anew for every element tested: `readings[i]` is the reading taken
   * when `events[i]` is tested, and the window ends there.
   */
  function EvictEach(events: seq<InputEvent>, readings: seq<real>): (r: seq<InputEvent>)
    requires |readings| == |events|
    ensures forall e :: e in r ==> e in events
    ensures |r| <= |events|
  {
    if events == [] then []
    else (if events[0].timestamp < readings[0] - EvictionWindow then [] else [events[0]])
         + EvictEach(events[1..], readings[1..])
  }

  /**
   * The queue `add` leaves behind: the new event, stamped with the reading
   * `now`, appended; then every event dropped that is older than one second
   * before the reading taken when it is tested (`readings[i]` for the `i`-th
   * event of the longer queue).
   */
  function AfterAdd(events: seq<InputEvent>, eventData: InputEventData, now: real, readings: seq<real>): seq<InputEvent>
    requires |readings| == |events| + 1
  {
    EvictEach(events + [InputEvent(now, eventData)], readings)
  }

  lemma {:induction false} EvictAppend(a: seq<InputEvent>, b: seq<InputEvent>, cutoff: real)
    ensures Evict(a + b, cutoff) == Evict(a, cutoff) + Evict(b, cutoff)
  {
    if a == [] {
      assert a + b == b;
    } else {
      assert (a + b)[0] == a[0];
      assert (a + b)[1..] == a[1..] + b;
      EvictAppend(a[1..], b, cutoff);
    }
  }

  lemma {:induction false} EvictIsSubsequence(events: seq<InputEvent>, cutoff: real)
    ensures Subsequence(Evict(events, cutoff), events)
  {
    if events != [] {
      EvictIsSubsequence(events[1..], cutoff);
      if events[0].timestamp < cutoff {
        assert Evict(events, cutoff) == Evict(events[1..], cutoff);
        SubsequenceOfTail(Evict(events[1..], cutoff), events[1..], events[0]);
        assert [events[0]] + events[1..] == events;
      }
    }
  }

  /** Eviction keeps every occurrence of an event at or after the cutoff and none of an older one. */
  lemma {:induction false} EvictCounts(events: seq<InputEvent>, cutoff: real)
    ensures forall e :: multiset(Evict(events, cutoff))[e] == if e.timestamp >= cutoff then multiset(events)[e] else 0
  {
    if events != [] {
      var x, rest := events[0], events[1..];
      EvictCounts(rest, cutoff);
      assert events == [x] + rest;
      if x.timestamp < cutoff {
        assert Evict(events, cutoff) == Evict(rest, cutoff);
      } else {
        assert Evict(events, cutoff) == [x] + Evict(rest, cutoff);
      }
    }
  }

  /** Every element of a subsequence is an element of the whole. */
  lemma {:induction false} SubsequenceMembers<T>(a: seq<T>, b: seq<T>)
    requires Subsequence(a, b)
    ensures forall x :: x in a ==> x in b
    decreases |b|
  {
    if a != [] {
      assert [b[0]] + b[1..] == b;
      if a[0] == b[0] {
        SubsequenceMembers(a[1..], b[1..]);
        assert [a[0]] + a[1..] == a;
      } else {
        SubsequenceMembers(a, b[1..]);
      }
    }
  }

  /** `x` in front of both keeps `a` a subsequence of `b`. */
  lemma SubsequenceOfCons<T>(a: seq<T>, b: seq<T>, x: T)
    requires Subsequence(a, b)
    ensures Subsequence([x] + a, [x] + b)
  {
    assert ([x] + a)[1..] == a;
    assert ([x] + b)[1..] == b;
  }

  /** When every reading is the same, the clock read per element is one cutoff. */
  lemma {:induction false} EvictEachConstant(events: seq<InputEvent>, readings: seq<real>, reading: real)
    requires |readings| == |events|
    requires forall i :: 0 <= i < |readings| ==> readings[i] == reading
    ensures EvictEach(events, readings) == Evict(events, reading - EvictionWindow)
  {
    if events != [] {
      assert forall i :: 0 <= i < |readings[1..]| ==> readings[1..][i] == readings[i + 1];
      EvictEachConstant(events[1..], readings[1..], reading);
    }
  }

  /**
   * Readings no earlier than `earliest` keep, in order, only events that the
   * cutoff one second before `earliest` keeps.
   */
  lemma {:induction false} EvictEachWithin(events: seq<InputEvent>, readings: seq<real>, earliest: real)
    requires |readings| == |events|
    requires forall i :: 0 <= i < |readings| ==> earliest <= readings[i]
    ensures Subsequence(EvictEach(events, readings), Evict(events, earliest - EvictionWindow))
    ensures forall e :: e in EvictEach(events, readings) ==> e.timestamp >= earliest - EvictionWindow
  {
    if events != [] {
      var x, rest := events[0], events[1..];
      assert forall i :: 0 <= i < |readings[1..]| ==> readings[1..][i] == readings[i + 1];
      EvictEachWithin(rest, readings[1..], earliest);
      var kept, bound := EvictEach(rest, readings[1..]), Evict(rest, earliest - EvictionWindow);
      if x.timestamp < readings[0] - EvictionWindow {
        assert EvictEach(events, readings) == kept;
        if x.timestamp >= earliest - EvictionWindow {
          assert Evict(events, earliest - EvictionWindow) == [x] + bound;
          SubsequenceOfTail(kept, bound, x);
        } else {
          assert Evict(events, earliest - EvictionWindow) == bound;
        }
      } else {
        assert EvictEach(events, readings) == [x] + kept;
        assert Evict(events, earliest - EvictionWindow) == [x] + bound;
        SubsequenceOfCons(kept, bound, x);
      }
    }
    SubsequenceMembers(EvictEach(events, readings), Evict(events, earliest - EvictionWindow));
  }

  /**
   * Readings no later than `latest` keep, in order, every event that the
   * cutoff one second before `latest` keeps.
   */
  lemma {:induction false} EvictEachKeepsNewer(events: seq<InputEvent>, readings: seq<real>, latest: real)
    requires |readings| == |events|
    requires forall i :: 0 <= i < |readings| ==> readings[i] <= latest
    ensures Subsequence(Evict(events, latest - EvictionWindow), EvictEach(events, readings))
    ensures forall e :: e in events && e.timestamp >= latest - EvictionWindow ==> e in EvictEach(events, readings)
  {
    if events != [] {
      var x, rest := events[0], events[1..];
      assert forall i :: 0 <= i < |readings[1..]| ==> readings[1..][i] == readings[i + 1];
      EvictEachKeepsNewer(rest, readings[1..], latest);
      var kept, bound := EvictEach(rest, readings[1..]), Evict(rest, latest - EvictionWindow);
      if x.timestamp < latest - EvictionWindow {
        assert Evict(events, latest - EvictionWindow) == bound;
        if x.timestamp >= readings[0] - EvictionWindow {
          assert EvictEach(events, readings) == [x] + kept;
          SubsequenceOfTail(bound, kept, x);
        } else {
          assert EvictEach(events, readings) == kept;
        }
      } else {
        assert EvictEach(events, readings) == [x] + kept;
        assert Evict(events, latest - EvictionWindow) == [x] + bound;
        SubsequenceOfCons(bound, kept, x);
      }
    }
    SubsequenceMembers(Evict(events, latest - EvictionWindow), EvictEach(events, readings));
  }

  lemma {:induction false} EvictEachAppend(a: seq<InputEvent>, b: seq<InputEvent>, readingsA: seq<real>, readingsB: seq<real>)
    requires |readingsA| == |a| && |readingsB| == |b|
    ensures EvictEach(a + b, readingsA + readingsB) == EvictEach(a, readingsA) + EvictEach(b, readingsB)
  {
    if a == [] {
      assert a + b == b;
      assert readingsA + readingsB == readingsB;
    } else {
      var events, readings := a + b, readingsA + readingsB;
      assert events[0] == a[0] && readings[0] == readingsA[0];
      assert events[1..] == a[1..] + b;
      assert readings[1..] == readingsA[1..] + readingsB;
      var head := if a[0].timestamp < readingsA[0] - EvictionWindow then [] else [a[0]];
      var restA, restB := EvictEach(a[1..], readingsA[1..]), EvictEach(b, readingsB);
      EvictEachAppend(a[1..], b, readingsA[1..], readingsB);
      assert EvictEach(events, readings) == head + (restA + restB);
      assert EvictEach(a, readingsA) == head + restA;
    }
  }

  lemma {:induction false} EvictEachIsSubsequence(events: seq<InputEvent>, readings: seq<real>)
    requires |readings| == |events|
    ensures Subsequence(EvictEach(events, readings), events)
  {
    if events != [] {
      EvictEachIsSubsequence(events[1..], readings[1..]);
      if events[0].timestamp < readings[0] - EvictionWindow {
        assert EvictEach(events, readings) == EvictEach(events[1..], readings[1..]);
        SubsequenceOfTail(EvictEach(events[1..], readings[1..]), events[1..], events[0]);
        assert [events[0]] + events[1..] == events;
      }
    }
  }

  lemma {:induction false} DueIsSubsequence(events: seq<InputEvent>, deadline: real)
    ensures Subsequence(Due(events, deadline), events)
  {
    if events != [] {
      DueIsSubsequence(events[1..], deadline);
      if events[0].timestamp > deadline {
        assert Due(events, deadline) == Due(events[1..], deadline);
        SubsequenceOfTail(Due(events[1..], deadline), events[1..], events[0]);
        assert [events[0]] + events[1..] == events;
      }
    }
  }

  lemma {:induction false} PendingIsSubsequence(events: seq<InputEvent>, deadline: real)
    ensures Subsequence(Pending(events, deadline), events)
  {
    if events != [] {
      PendingIsSubsequence(events[1..], deadline);
      if events[0].timestamp <= deadline {
        assert Pending(events, deadline) == Pending(events[1..], deadline);
        SubsequenceOfTail(Pending(events[1..], deadline), events[1..], events[0]);
        assert [events[0]] + events[1..] == events;
      }
    }
  }

  /**
   * After `add`, when no eviction reading is earlier than `earliest` (with a
   * clock that does not go back, `now` is such a bound), no queued event is
   * older than one second before `earliest`, and the survivors keep their
   * relative order.
   */
  lemma AddEvictsAndKeepsOrder(events: seq<InputEvent>, eventData: InputEventData, now: real, readings: seq<real>, earliest: real)
    requires |readings| == |events| + 1
    requires forall i :: 0 <= i < |readings| ==> earliest <= readings[i]
    ensures forall e :: e in AfterAdd(events, eventData, now, readings) ==> e.timestamp >= earliest - 1.0
    ensures Subsequence(AfterAdd(events, eventData, now, readings), events + [InputEvent(now, eventData)])
  {
    EvictEachWithin(events + [InputEvent(now, eventData)], readings, earliest);
    EvictEachIsSubsequence(events + [InputEvent(now, eventData)], readings);
  }

  /**
   * When the clock has moved by at most the window between stamping the new
   * event and testing it, the new event is kept and sits at the end of the
   * queue, after the surviving old events.
   */
  lemma {:induction false} AddAppendsAtEnd(events: seq<InputEvent>, eventData: InputEventData, now: real, readings: seq<real>)
    requires |readings| == |events| + 1
    requires readings[|events|] - EvictionWindow <= now
    ensures AfterAdd(events, eventData, now, readings)
         == EvictEach(events, readings[..|events|]) + [InputEvent(now, eventData)]
  {
    var e := InputEvent(now, eventData);
    assert readings == readings[..|events|] + readings[|events|..];
    EvictEachAppend(events, [e], readings[..|events|], readings[|events|..]);
    assert EvictEach([e], readings[|events|..]) == [e] by {
      assert [e][1..] == [];
      assert readings[|events|..][0] == readings[|events|];
    }
  }

  /** `fetch` splits the queue: what it returns and what it keeps partition the old queue, both in order. */
  lemma {:induction false} FetchPartitions(events: seq<InputEvent>, deadline: real)
    ensures multiset(Due(events, deadline)) + multiset(Pending(events, deadline)) == multiset(events)
    ensures Subsequence(Due(events, deadline), events)
    ensures Subsequence(Pending(events, deadline), events)
  {
    DueIsSubsequence(events, deadline);
    PendingIsSubsequence(events, deadline);
    FetchCountsAdd(events, deadline);
  }

  lemma {:induction false} FetchCountsAdd(events: seq<InputEvent>, deadline: real)
    ensures multiset(Due(events, deadline)) + multiset(Pending(events, deadline)) == multiset(events)
  {
    if events != [] {
      var x, rest := events[0], events[1..];
      FetchCountsAdd(rest, deadline);
      assert events == [x] + rest;
      if x.timestamp <= deadline {
        assert Due(events, deadline) == [x] + Due(rest, deadline);
        assert Pending(events, deadline) == Pending(rest, deadline);
      } else {
        assert Due(events, deadline) == Due(rest, deadline);
        assert Pending(events, deadline) == [x] + Pending(rest, deadline);
      }
    }
  }

  /** A second `fetch` with the same deadline returns nothing. */
  lemma {:induction false} FetchTwiceIsEmpty(events: seq<InputEvent>, deadline: real)
    ensures Due(Pending(events, deadline), deadline) == []
  {
    if events != [] {
      FetchTwiceIsEmpty(events[1..], deadline);
      if events[0].timestamp <= deadline {
        assert Pending(events, deadline) == Pending(events[1..], deadline);
      } else {
        var p := Pending(events, deadline);
        assert p == [events[0]] + Pending(events[1..], deadline);
        assert p[1..] == Pending(events[1..], deadline);
      }
    }
  }

  lemma {:induction false} DueOfLate(events: seq<InputEvent>, deadline: real)
    requires forall e :: e in events ==> e.timestamp <= deadline
    ensures Due(events, deadline) == events
    ensures Pending(events, deadline) == []
  {
    if events != [] {
      assert events[0] in events;
      assert forall e :: e in events[1..] ==> e in events;
      DueOfLate(events[1..], deadline);
      assert [events[0]] + events[1..] == events;
    }
  }

  /**
   * `add` at time `now` followed by `fetch(until: now)` returns what survived
   * of the queue followed by the new event, and leaves the queue empty, as
   * long as no queued event carries a timestamp later than `now` and the
   * clock has moved by at most the window when the new event is tested. From
   * an empty queue it returns exactly the added event.
   */
  lemma AddThenFetch(events: seq<InputEvent>, eventData: InputEventData, now: real, readings: seq<real>)
    requires forall e :: e in events ==> e.timestamp <= now
    requires |readings| == |events| + 1
    requires readings[|events|] - EvictionWindow <= now
    ensures Due(AfterAdd(events, eventData, now, readings), now)
         == EvictEach(events, readings[..|events|]) + [InputEvent(now, eventData)]
    ensures Pending(AfterAdd(events, eventData, now, readings), now) == []
    ensures events == [] ==> Due(AfterAdd(events, eventData, now, readings), now) == [InputEvent(now, eventData)]
  {
    AddAppendsAtEnd(events, eventData, now, readings);
    DueOfLate(AfterAdd(events, eventData, now, readings), now);
  }

  // ---------------------------------------------------------------------------
  // Reductions over an array of events

  /** Which events a delta reduction adds up. */
  datatype DeltaSelector = MouseDragOf(button: MouseButtonType) | ScrollDeltas

  predicate Selects(selector: DeltaSelector, e: InputEvent) {
    match selector
    case MouseDragOf(button) => e.data.PointerDrag? && e.data.pointerType == Mouse(button)
    case ScrollDeltas => e.data.Scroll?
  }

  function Plus(a: Point, b: Point): Point {
    Point(a.x + b.x, a.y + b.y)
  }

  /** One step of the `reduce` closure: start at the first delta, then add. */
  function ReduceStep(partial: Option<Point>, e: InputEvent, selector: DeltaSelector): Option<Point> {
    if !Selects(selector, e) then partial
    else match partial
      case None => Some(e.data.delta)
      case Some(p) => Some(Plus(p, e.data.delta))
  }

  /** `reduce(partial, step)` over `events`, from the left. */
  function ReduceDeltas(partial: Option<Point>, events: seq<InputEvent>, selector: DeltaSelector): Option<Point>
    decreases |events|
  {
    if events == [] then partial
    else ReduceDeltas(ReduceStep(partial, events[0], selector), events[1..], selector)
  }

  function MouseDrag(events: seq<InputEvent>, button: MouseButtonType): Option<Point> {
    ReduceDeltas(None, events, MouseDragOf(button))
  }

  function ScrollDelta(events: seq<InputEvent>): Option<Point> {
    ReduceDeltas(None, events, ScrollDeltas)
  }

  /** `contains(where:)`: some event is a key-down of `key`. */
  function IsKeyDown(events: seq<InputEvent>, key: UInt16): bool {
    events != [] && (events[0].data == KeyDown(key) || IsKeyDown(events[1..], key))
  }

  // Independent reference definitions for the reductions

  predicate AnySelected(events: seq<InputEvent>, selector: DeltaSelector) {
    exists i :: 0 <= i < |events| && Selects(selector, events[i])
  }

  /** The sum of the selected deltas, added from the right. */
  function SelectedTotal(events: seq<InputEvent>, selector: DeltaSelector): Point {
    if events == [] then Point(0.0, 0.0)
    else Plus(if Selects(selector, events[0]) then events[0].data.delta else Point(0.0, 0.0),
              SelectedTotal(events[1..], selector))
  }

  function AddTo(partial: Option<Point>, total: Point): Point {
    match partial
    case None => total
    case Some(p) => Plus(p, total)
  }

  lemma {:induction false} NoneSelectedTotal(events: seq<InputEvent>, selector: DeltaSelector)
    requires !AnySelected(events, selector)
    ensures SelectedTotal(events, selector) == Point(0.0, 0.0)
  {
    if events != [] {
      assert !Selects(selector, events[0]);
      assert !AnySelected(events[1..], selector) by {
        forall i | 0 <= i < |events| - 1 ensures !Selects(selector, events[1..][i]) {
          assert events[1..][i] == events[i + 1];
        }
      }
      NoneSelectedTotal(events[1..], selector);
    }
  }

  lemma AnySelectedCons(events: seq<InputEvent>, selector: DeltaSelector)
    requires events != []
    ensures AnySelected(events, selector) <==> Selects(selector, events[0]) || AnySelected(events[1..], selector)
  {
    var rest := events[1..];
    if AnySelected(events, selector) && !Selects(selector, events[0]) {
      var i :| 0 <= i < |events| && Selects(selector, events[i]);
      assert rest[i - 1] == events[i];
    }
    if AnySelected(rest, selector) {
      var i :| 0 <= i < |rest| && Selects(selector, rest[i]);
      assert events[i + 1] == rest[i];
    }
  }

  lemma AddToPlus(partial: Option<Point>, d: Point, t: Point)
    ensures AddTo(Some(AddTo(partial, d)), t) == AddTo(partial, Plus(d, t))
  {
  }

  /** The left fold from any partial result agrees with the reference sum. */
  lemma {:induction false} ReduceDeltasSum(partial: Option<Point>, events: seq<InputEvent>, selector: DeltaSelector)
    ensures ReduceDeltas(partial, events, selector)
         == if AnySelected(events, selector) then Some(AddTo(partial, SelectedTotal(events, selector))) else partial
    decreases |events|
  {
    if events == [] {
      assert !AnySelected(events, selector);
    } else {
      var rest := events[1..];
      var next := ReduceStep(partial, events[0], selector);
      ReduceDeltasSum(next, rest, selector);
      AnySelectedCons(events, selector);
      if Selects(selector, events[0]) {
        var d := events[0].data.delta;
        assert next == Some(AddTo(partial, d));
        assert SelectedTotal(events, selector) == Plus(d, SelectedTotal(rest, selector));
        if AnySelected(rest, selector) {
          AddToPlus(partial, d, SelectedTotal(rest, selector));
        } else {
          NoneSelectedTotal(rest, selector);
        }
      } else {
        assert next == partial;
        assert SelectedTotal(events, selector) == Plus(Point(0.0, 0.0), SelectedTotal(rest, selector));
      }
    }
  }

  /**
   * `mouseDrag(b)` is nil exactly when no event is a mouse drag with button `b`;
   * otherwise it is the sum of those drags' deltas. Touch drags and drags with
   * other buttons do not contribute.
   */
  lemma MouseDragMeaning(events: seq<InputEvent>, button: MouseButtonType)
    ensures MouseDrag(events, button).None?
        <==> !(exists i :: 0 <= i < |events| && events[i].data.PointerDrag? && events[i].data.pointerType == Mouse(button))
    ensures MouseDrag(events, button).Some? ==> MouseDrag(events, button).value == SelectedTotal(events, MouseDragOf(button))
  {
    ReduceDeltasSum(None, events, MouseDragOf(button));
  }

  /** `scroll()` is nil exactly when there is no scroll event; otherwise it is the sum of their deltas. */
  lemma ScrollMeaning(events: seq<InputEvent>)
    ensures ScrollDelta(events).None? <==> !(exists i :: 0 <= i < |events| && events[i].data.Scroll?)
    ensures ScrollDelta(events).Some? ==> ScrollDelta(events).value == SelectedTotal(events, ScrollDeltas)
  {
    ReduceDeltasSum(None, events, ScrollDeltas);
  }

  /** `isKeyDown(k)` holds exactly when some event is a key-down of `k`. */
  lemma {:induction false} IsKeyDownMeaning(events: seq<InputEvent>, key: UInt16)
    ensures IsKeyDown(events, key) <==> exists i :: 0 <= i < |events| && events[i].data == KeyDown(key)
  {
    if events != [] {
      IsKeyDownMeaning(events[1..], key);
      if IsKeyDown(events[1..], key) {
        var i :| 0 <= i < |events| - 1 && events[1..][i].data == KeyDown(key);
        assert events[i + 1].data == KeyDown(key);
      }
      if exists i :: 0 <= i < |events| && events[i].data == KeyDown(key) {
        var i :| 0 <= i < |events| && events[i].data == KeyDown(key);
        if i > 0 {
          assert events[1..][i - 1].data == KeyDown(key);
        }
      }
    }
  }

  /** A key-up event never makes a key count as down. */
  lemma KeyUpNeverCounts(before: seq<InputEvent>, after: seq<InputEvent>, timestamp: real, key: UInt16, other: UInt16)
    ensures IsKeyDown(before + [InputEvent(timestamp, KeyUp(other))] + after, key) == IsKeyDown(before + after, key)
  {
    var with := before + [InputEvent(timestamp, KeyUp(other))] + after;
    var without := before + after;
    IsKeyDownMeaning(with, key);
    IsKeyDownMeaning(without, key);
    if exists i :: 0 <= i < |with| && with[i].data == KeyDown(key) {
      var i :| 0 <= i < |with| && with[i].data == KeyDown(key);
      if i < |before| {
        assert without[i] == with[i];
      } else {
        assert i > |before|;
        assert without[i - 1] == with[i];
      }
    }
    if exists i :: 0 <= i < |without| && without[i].data == KeyDown(key) {
      var i :| 0 <= i < |without| && without[i].data == KeyDown(key);
      if i < |before| {
        assert with[i] == without[i];
      } else {
        assert with[i + 1] == without[i];
      }
    }
  }

  // ---------------------------------------------------------------------------
  // The queue

  /**
   * `InputManager`: a queue of timestamped events. The mutual exclusion around
   * every access is not modelled; the wall-clock readings of `add` (one for
   * the new event's timestamp, one per event its eviction tests) and the
   * default deadline of `fetch` are parameters.
   */
  class InputManager {
    var inputEvents: seq<InputEvent>

    constructor ()
      ensures inputEvents == []
    {
      inputEvents := [];
    }

    /**
     * Appends `eventData` stamped with the clock reading `now`, then drops
     * every event older than one second before the reading taken when that
     * event is tested: `readings[i]` for the `i`-th event of the longer queue.
     */
    method Add(eventData: InputEventData, now: real, readings: seq<real>)
      requires |readings| == |inputEvents| + 1
      modifies this
      ensures inputEvents == AfterAdd(old(inputEvents), eventData, now, readings)
    {
      inputEvents := inputEvents + [InputEvent(now, eventData)];
      inputEvents := EvictEach(inputEvents, readings);
    }

    /** Removes and returns, in queue order, every event stamped at or before `deadline`. */
    method Fetch(deadline: real) returns (events: seq<InputEvent>)
      modifies this
      ensures events == Due(old(inputEvents), deadline)
      ensures inputEvents == Pending(old(inputEvents), deadline)
    {
      events := Due(inputEvents, deadline);
      inputEvents := Pending(inputEvents, deadline);
    }
  }
}

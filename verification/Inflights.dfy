/** The window of in-flight appends: a growable ring buffer that behaves as a bounded FIFO. */
module Inflights {
  import opened Common

  // ----- The abstract window -------------------------------------------------------------------

  /** A FIFO with a bound and, while it is draining, a smaller bound waiting to take effect. */
  datatype Fifo = Fifo(queue: seq<U64>, capacity: nat, pending: Option<nat>) {

    ghost predicate Valid() {
      && |queue| <= capacity
      && (pending.Some? ==> pending.value < capacity && queue != [])
    }

    predicate Full() {
      |queue| == capacity || (pending.Some? && |queue| >= pending.value)
    }

    /** Once nothing is in flight the waiting bound takes effect. */
    function Settle(): Fifo {
      if queue == [] && pending.Some? then Fifo([], pending.value, None) else this
    }

    function Resize(n: nat): Fifo {
      if n >= capacity || queue == [] then Fifo(queue, n, None) else Fifo(queue, capacity, Some(n))
    }

    function FreeTo(to: U64): Fifo { Fifo(DropUpTo(queue, to), capacity, pending).Settle() }

    function Push(x: U64): Fifo { Fifo(queue + [x], capacity, pending) }

    function Reset(): Fifo { Fifo([], capacity, pending).Settle() }
  }

  function DropUpTo(q: seq<U64>, to: U64): seq<U64> {
    if q == [] || q[0] > to then q else DropUpTo(q[1..], to)
  }

  /** Freeing removes exactly the longest prefix of entries at most `to`. */
  lemma {:induction false} DropUpToIsMaximal(q: seq<U64>, to: U64) returns (k: nat)
    ensures k <= |q| && DropUpTo(q, to) == q[k..]
    ensures forall i :: 0 <= i < k ==> q[i] <= to
    ensures k < |q| ==> q[k] > to
  {
    if q == [] || q[0] > to {
      k := 0;
    } else {
      var n := DropUpToIsMaximal(q[1..], to);
      k := n + 1;
      assert q[k..] == q[1..][n..];
      forall i | 0 <= i < k ensures q[i] <= to {
        if i > 0 { assert q[i] == q[1..][i - 1]; }
      }
    }
  }

  ghost predicate Increasing(q: seq<U64>) { forall i, j :: 0 <= i < j < |q| ==> q[i] < q[j] }

  /** On the increasing windows the leader keeps, freeing keeps exactly the indices above `to`. */
  lemma FreeToKeepsNewer(q: seq<U64>, to: U64)
    requires Increasing(q)
    ensures Increasing(DropUpTo(q, to))
    ensures forall x :: x in DropUpTo(q, to) <==> x in q && x > to
  {
    var k := DropUpToIsMaximal(q, to);
  }

  /** Freeing the oldest entry removes that entry and nothing else. */
  lemma FreeFirstRemovesOne(q: seq<U64>)
    requires q != [] && Increasing(q)
    ensures DropUpTo(q, q[0]) == q[1..]
  {
    assert |q| > 1 ==> q[1] > q[0];
    assert DropUpTo(q[1..], q[0]) == q[1..];
  }

  // ----- Runs of the abstract window -----------------------------------------------------------

  datatype Op = Add(index: U64) | Free(to: U64) | FreeFirst | Resize(n: nat) | Reset

  /** The caller checks `full` before adding. */
  ghost predicate Allowed(f: Fifo, op: Op) { op.Add? ==> !f.Full() }

  function Apply(f: Fifo, op: Op): Fifo {
    match op
    case Add(x) => f.Push(x)
    case Free(to) => f.FreeTo(to)
    case FreeFirst => if f.queue == [] then f else f.FreeTo(f.queue[0])
    case Resize(n) => f.Resize(n)
    case Reset => f.Reset()
  }

  /** `trace[i + 1]` is what `ops[i]` makes of `trace[i]`, and every addition was allowed. */
  ghost predicate IsRun(trace: seq<Fifo>, ops: seq<Op>) {
    && |trace| == |ops| + 1 && trace[0].Valid()
    && forall i :: 0 <= i < |ops| ==> Allowed(trace[i], ops[i]) && trace[i + 1] == Apply(trace[i], ops[i])
  }

  function Added(ops: seq<Op>): seq<U64> {
    if ops == [] then [] else Added(ops[..|ops| - 1]) + AddedBy(ops[|ops| - 1])
  }

  function AddedBy(op: Op): seq<U64> { if op.Add? then [op.index] else [] }

  /**
   * Over any run the window never exceeds its capacity, and what is in flight is always a final
   * stretch of everything that was ever put in, in order: nothing is lost from the middle,
   * reordered or invented, whatever resizing happens in between.
   */
  lemma {:induction false} WindowIsFifo(trace: seq<Fifo>, ops: seq<Op>)
    requires IsRun(trace, ops)
    ensures trace[|ops|].Valid()
    ensures IsSuffix(trace[|ops|].queue, trace[0].queue + Added(ops))
  {
    if ops == [] {
      assert trace[0].queue + Added(ops) == trace[0].queue;
    } else {
      var n := |ops| - 1;
      WindowIsFifo(trace[..|ops|], ops[..n]);
      assert trace[|ops|] == Apply(trace[n], ops[n]);
      var all := trace[0].queue + Added(ops[..n]);
      SuffixStep(trace[n], ops[n], all);
      assert trace[0].queue + Added(ops) == all + AddedBy(ops[n]);
    }
  }

  ghost predicate IsSuffix(q: seq<U64>, all: seq<U64>) {
    |q| <= |all| && q == all[|all| - |q|..]
  }

  lemma SuffixStep(f: Fifo, op: Op, all: seq<U64>)
    requires f.Valid() && Allowed(f, op) && IsSuffix(f.queue, all)
    ensures Apply(f, op).Valid()
    ensures IsSuffix(Apply(f, op).queue, all + AddedBy(op))
  {
    if op.Add? {
      assert (all + [op.index])[|all| - |f.queue|..] == f.queue + [op.index];
    } else {
      assert all + AddedBy(op) == all;
      var q := Apply(f, op).queue;
      assert IsSuffix(q, f.queue) by { DropIsSuffix(f, op); }
    }
  }

  lemma DropIsSuffix(f: Fifo, op: Op)
    requires !op.Add?
    ensures IsSuffix(Apply(f, op).queue, f.queue)
  {
    match op
    case Free(to) =>
      var _ := DropUpToIsMaximal(f.queue, to);
    case FreeFirst =>
      if f.queue != [] { var _ := DropUpToIsMaximal(f.queue, f.queue[0]); }
    case Resize(n) =>
    case Reset =>
  }

  /** While a shrink is pending nothing is admitted beyond the smaller bound, and the first emptying applies it. */
  lemma PendingShrinkApplies(f: Fifo, op: Op)
    requires f.Valid() && Allowed(f, op) && f.pending.Some?
    requires !op.Resize?
    ensures op.Add? ==> |Apply(f, op).queue| <= f.pending.value
    ensures Apply(f, op).queue != [] ==> Apply(f, op).pending == f.pending && Apply(f, op).capacity == f.capacity
    ensures Apply(f, op).queue == [] ==> Apply(f, op) == Fifo([], f.pending.value, None)
  {
  }

  /** The bound last asked for, whether it is in effect or waits for the window to drain. */
  function LastLimit(start: Fifo, ops: seq<Op>): nat {
    if ops == [] then if start.pending.Some? then start.pending.value else start.capacity
    else if ops[|ops| - 1].Resize? then ops[|ops| - 1].n
    else LastLimit(start, ops[..|ops| - 1])
  }

  /** The bound in force, or the smaller one that waits. */
  function Bound(f: Fifo): nat { if f.pending.Some? then f.pending.value else f.capacity }

  lemma BoundStep(f: Fifo, op: Op)
    requires f.Valid() && Allowed(f, op)
    ensures Bound(Apply(f, op)) == if op.Resize? then op.n else Bound(f)
  {
    hide DropUpTo;
  }

  lemma FullAtBound(f: Fifo)
    requires f.Valid()
    ensures f.Full() <==> |f.queue| >= Bound(f)
  {
  }

  /** Along every run the window counts as full exactly when it holds as many as the bound last asked for allows. */
  lemma {:induction false} FullAtLastLimit(trace: seq<Fifo>, ops: seq<Op>)
    requires IsRun(trace, ops)
    ensures trace[|ops|].Full() <==> |trace[|ops|].queue| >= LastLimit(trace[0], ops)
    ensures LastLimit(trace[0], ops) == Bound(trace[|ops|])
  {
    hide Apply, Added, IsSuffix, Allowed;
    WindowIsFifo(trace, ops);
    FullAtBound(trace[|ops|]);
    if ops != [] {
      var n := |ops| - 1;
      assert IsRun(trace[..|ops|], ops[..n]);
      FullAtLastLimit(trace[..|ops|], ops[..n]);
      WindowIsFifo(trace[..|ops|], ops[..n]);
      BoundStep(trace[n], ops[n]);
    }
  }

  // ----- Ring arithmetic -----------------------------------------------------------------------

  /** The `i`-th slot from `start`, wrapping at `capacity`. */
  function Slot(start: nat, i: nat, capacity: nat): int {
    if start + i < capacity then start + i else start + i - capacity
  }

  /**
   * `slots` are the slots written so far. Either the entries lie in one stretch of them, or the
   * ring is fully written and may wrap.
   */
  ghost predicate RingOk(slots: seq<U64>, start: nat, count: nat, capacity: nat) {
    && count <= capacity && |slots| <= capacity
    && (start < capacity || start == 0)
    && (start + count <= |slots| || |slots| == capacity)
  }

  /** The entries from oldest to newest. */
  ghost function Entries(slots: seq<U64>, start: nat, count: nat, capacity: nat): (q: seq<U64>)
    requires RingOk(slots, start, count, capacity)
    ensures |q| == count
  {
    if start + count <= capacity then slots[start..start + count]
    else slots[start..] + slots[..start + count - capacity]
  }

  lemma WrappedEntries(slots: seq<U64>, start: nat, count: nat, capacity: nat)
    requires RingOk(slots, start, count, capacity) && start + count > capacity
    ensures |slots| == capacity
    ensures Entries(slots, start, count, capacity) == slots[start..] + slots[..start + count - capacity]
  {
  }

  lemma EntryAt(slots: seq<U64>, start: nat, count: nat, capacity: nat, i: nat)
    requires RingOk(slots, start, count, capacity) && i < count
    ensures 0 <= Slot(start, i, capacity) < |slots|
    ensures Entries(slots, start, count, capacity)[i] == slots[Slot(start, i, capacity)]
  {
  }

  lemma EntriesDrop(slots: seq<U64>, start: nat, count: nat, capacity: nat, i: nat)
    requires RingOk(slots, start, count, capacity) && i <= count && count > 0
    ensures 0 <= Slot(start, i, capacity)
    ensures RingOk(slots, Slot(start, i, capacity), count - i, capacity)
    ensures Entries(slots, Slot(start, i, capacity), count - i, capacity) ==
      Entries(slots, start, count, capacity)[i..]
  {
    hide Entries;
    var q, r := Entries(slots, start, count, capacity), Entries(slots, Slot(start, i, capacity), count - i, capacity);
    forall j | 0 <= j < |r| ensures r[j] == q[i..][j] {
      EntryAt(slots, Slot(start, i, capacity), count - i, capacity, j);
      EntryAt(slots, start, count, capacity, i + j);
    }
  }

  function Written(slots: seq<U64>, next: nat, x: U64): seq<U64>
    requires next <= |slots|
  {
    if next == |slots| then slots + [x] else slots[next := x]
  }

  lemma EntriesPush(slots: seq<U64>, start: nat, count: nat, capacity: nat, x: U64)
    requires RingOk(slots, start, count, capacity) && count < capacity
    ensures 0 <= Slot(start, count, capacity) <= |slots| && Slot(start, count, capacity) < capacity
    ensures RingOk(Written(slots, Slot(start, count, capacity), x), start, count + 1, capacity)
    ensures Entries(Written(slots, Slot(start, count, capacity), x), start, count + 1, capacity) ==
      Entries(slots, start, count, capacity) + [x]
  {
    var next := Slot(start, count, capacity);
    var slots' := Written(slots, next, x);
    var q, r := Entries(slots, start, count, capacity), Entries(slots', start, count + 1, capacity);
    forall j | 0 <= j < |r| ensures r[j] == (q + [x])[j] {
      EntryAt(slots', start, count + 1, capacity, j);
      if j < count { EntryAt(slots, start, count, capacity, j); }
    }
  }

  // ----- The ring buffer -----------------------------------------------------------------------

  class Ring {
    var start: nat
    var count: nat
    /** Allocated slots; its length is the list capacity, zero until the first `Add`. */
    var buffer: array<U64>
    /** How many slots of `buffer` have ever been written: the list length. */
    var written: nat
    var capacity: nat
    var incomingCapacity: Option<nat>

    ghost predicate Valid()
      reads this, buffer
    {
      && written <= buffer.Length
      && RingOk(buffer[..written], start, count, capacity)
      && (if buffer.Length == 0 then start == 0 && count == 0 else buffer.Length >= capacity)
      && (incomingCapacity.Some? ==> incomingCapacity.value < capacity && count > 0)
    }

    ghost function View(): (f: Fifo)
      reads this, buffer
      requires Valid()
      ensures f.Valid()
    {
      Fifo(Entries(buffer[..written], start, count, capacity), capacity, incomingCapacity)
    }

    constructor (capacity: nat)
      ensures Valid() && fresh(buffer)
      ensures View() == Fifo([], capacity, None)
    {
      start, count, written := 0, 0, 0;
      buffer := new U64[0];
      this.capacity := capacity;
      incomingCapacity := None;
    }

    /** Moves the written slots to a list with `n` allocated ones. */
    method Reallocate(n: nat)
      requires written <= buffer.Length && written <= n
      modifies this`buffer
      ensures fresh(buffer) && buffer.Length == n
      ensures buffer[..written] == old(buffer[..written])
    {
      var bigger := new U64[n];
      for i := 0 to written
        invariant buffer == old(buffer) && unchanged(buffer)
        invariant bigger[..i] == buffer[..i]
      {
        bigger[i] := buffer[i];
      }
      buffer := bigger;
    }

    /** Growth takes effect at once; a shrink waits until nothing is in flight. */
    method SetCapacity(n: nat)
      requires Valid()
      modifies this
      ensures Valid() && (buffer == old(buffer) || fresh(buffer))
      ensures View() == old(View()).Resize(n)
    {
      if capacity == n {
        incomingCapacity := None;
        return;
      }
      if capacity < n {
        Grow(n);
        return;
      }
      if count == 0 {
        capacity := n;
        incomingCapacity := None;
        start := 0;
        if buffer.Length > 0 {
          buffer := new U64[n];
        }
        written := 0;
      } else {
        incomingCapacity := Some(n);
      }
    }

    /** A larger capacity takes effect at once, and cancels a pending smaller one. */
    method Grow(n: nat)
      requires Valid() && n > capacity
      modifies this
      ensures Valid() && (buffer == old(buffer) || fresh(buffer))
      ensures View() == old(View()).(capacity := n, pending := None)
    {
      if start + count <= capacity {
        if buffer.Length > 0 && buffer.Length < n {
          Reallocate(n);
        }
      } else {
        Unwrap(n);
      }
      capacity := n;
      incomingCapacity := None;
    }

    /** Growing a wrapped ring copies its two stretches out in queue order. */
    method Unwrap(n: nat)
      requires Valid() && start + count > capacity && n > capacity
      modifies this`buffer, this`start, this`written
      ensures fresh(buffer) && buffer.Length == n
      ensures start == 0 && written == count && buffer[..count] == old(View()).queue
    {
      hide Entries;
      WrappedEntries(buffer[..written], start, count, capacity);
      var larger := new U64[n];
      var front := written - start;
      AppendSlice(larger, 0, start, front);
      var tail := count - (capacity - start);
      AppendSlice(larger, front, 0, tail);
      assert buffer[..written][start..] == buffer[start..written];
      assert buffer[..written][..tail] == buffer[..tail];
      buffer := larger;
      start, written := 0, count;
    }

    /** Appends `len` slots of this ring's buffer, from `from` on, to a list holding `at` values. */
    method AppendSlice(list: array<U64>, at: nat, from: nat, len: nat)
      requires list != buffer && at + len <= list.Length && from + len <= buffer.Length
      modifies list
      ensures list[..at + len] == old(list[..at]) + buffer[from..from + len]
    {
      for i := 0 to len
        invariant list[..at] == old(list[..at])
        invariant list[at..at + i] == buffer[from..from + i]
      {
        list[at + i] := buffer[from + i];
      }
      assert list[..at + len] == list[..at] + list[at..at + len];
    }

    method Reset()
      requires Valid()
      modifies this
      ensures Valid() && fresh(buffer)
      ensures View() == old(View()).Reset()
    {
      count, start, written := 0, 0, 0;
      buffer := new U64[0];
      if incomingCapacity.Some? {
        capacity := incomingCapacity.value;
        incomingCapacity := None;
      }
    }

    method FreeTo(to: U64)
      requires Valid()
      modifies this
      ensures Valid() && (buffer == old(buffer) || fresh(buffer))
      ensures View() == old(View()).FreeTo(to)
    {
      hide Entries;
      ghost var slots := buffer[..written];
      if count == 0 {
        return;
      }
      EntryAt(slots, start, count, capacity, 0);
      if to < buffer[start] {
        return;
      }
      var i, idx := Scan(to);
      ghost var kept := Entries(slots, idx, count - i, capacity);
      count := count - i;
      start := idx;
      assert buffer[..written] == slots;
      Settle(kept);
    }

    /** The pending bound takes effect once the window has drained. */
    method Settle(ghost kept: seq<U64>)
      requires written <= buffer.Length && RingOk(buffer[..written], start, count, capacity)
      requires kept == Entries(buffer[..written], start, count, capacity)
      requires buffer.Length >= capacity > 0
      requires incomingCapacity.Some? ==> incomingCapacity.value < capacity
      modifies this
      ensures Valid() && (buffer == old(buffer) || fresh(buffer))
      ensures View() == Fifo(kept, old(capacity), old(incomingCapacity)).Settle()
    {
      if count == 0 && incomingCapacity.Some? {
        start := 0;
        capacity := incomingCapacity.value;
        buffer := new U64[capacity];
        written := 0;
        incomingCapacity := None;
      }
    }

    /** Walks past the entries at most `to`: how many there are, and the slot after them. */
    method Scan(to: U64) returns (i: nat, idx: nat)
      requires Valid() && count > 0
      ensures i <= count && idx == Slot(start, i, capacity)
      ensures RingOk(buffer[..written], idx, count - i, capacity)
      ensures Entries(buffer[..written], idx, count - i, capacity) == DropUpTo(View().queue, to)
    {
      hide Entries;
      ghost var q := View().queue;
      i, idx := 0, start;
      while i < count
        invariant 0 <= i <= count && idx == Slot(start, i, capacity)
        invariant DropUpTo(q, to) == DropUpTo(q[i..], to)
      {
        EntryAt(buffer[..written], start, count, capacity, i);
        if to < buffer[idx] {
          break;
        }
        assert q[i..][1..] == q[i + 1..];
        idx := idx + 1;
        if idx >= capacity { idx := idx - capacity; }
        i := i + 1;
      }
      EntriesDrop(buffer[..written], start, count, capacity, i);
    }

    method FreeFirstOne()
      requires Valid()
      modifies this
      ensures Valid() && (buffer == old(buffer) || fresh(buffer))
      ensures View() == Apply(old(View()), FreeFirst)
    {
      if count > 0 {
        EntryAt(buffer[..written], start, count, capacity, 0);
        FreeTo(buffer[start]);
      }
    }

    method Full() returns (full: bool)
      requires Valid()
      ensures full == View().Full()
    {
      if count == capacity { return true; }
      if incomingCapacity.Some? { return count >= incomingCapacity.value; }
      return false;
    }

    /** Overwrites a written slot, or appends to the list within its capacity. */
    method Store(next: nat, x: U64)
      requires next <= written <= buffer.Length && next < buffer.Length
      modifies this`written, buffer
      ensures written == if next == old(written) then old(written) + 1 else old(written)
      ensures written <= buffer.Length
      ensures buffer[..written] == Written(old(buffer[..written]), next, x)
    {
      buffer[next] := x;
      if next == written {
        written := written + 1;
      }
    }

    /** Callers must have checked `Full`; the source stops the program otherwise. */
    method Add(inflight: U64)
      requires Valid() && !View().Full()
      modifies this, buffer
      ensures Valid() && (buffer == old(buffer) || fresh(buffer))
      ensures View() == old(View()).Push(inflight)
    {
      ghost var slots := buffer[..written];
      EntriesPush(slots, start, count, capacity, inflight);
      if buffer.Length == 0 {
        assert count == 0 && start == 0 && incomingCapacity.None?;
        buffer := new U64[capacity];
      }
      var next := start + count;
      if next >= capacity { next := next - capacity; }
      Store(next, inflight);
      count := count + 1;
    }
  }
}

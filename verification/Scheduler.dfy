/** Fair turns: the round-robin over groups and the automatic-snapshot sweep of a multi-group host. */
module Scheduler {
  import opened Common

  // ----- Going round ---------------------------------------------------------------------------

  /** The slot `t` turns after slot `c` among `n`. */
  function Slot(n: nat, c: nat, t: nat): (j: nat)
    requires n > 0
    ensures j < n
  {
    (c + t) % n
  }

  /** The slots that come up in `m` turns from `c`. */
  function Turns(n: nat, c: nat, m: nat): (r: seq<nat>)
    requires n > 0
    ensures |r| == m && forall t :: 0 <= t < m ==> r[t] == Slot(n, c, t)
  {
    seq(m, t requires t >= 0 => Slot(n, c, t))
  }

  function Count(s: seq<nat>, j: nat): nat {
    if s == [] then 0 else Count(s[..|s| - 1], j) + if s[|s| - 1] == j then 1 else 0
  }

  /** `q` times `n`, added up. */
  function Times(q: nat, n: nat): nat { if q == 0 then 0 else n + Times(q - 1, n) }

  lemma {:induction false} TimesIs(q: nat, n: nat)
    ensures Times(q, n) == q * n
  {
    if q > 0 {
      TimesIs(q - 1, n);
      assert (q - 1) * n + n == q * n;
    }
  }

  lemma OneLapMore(n: nat, y: nat)
    requires n > 0
    ensures (y + n) % n == y % n && (y + n) / n == y / n + 1
  {
    var a, c := y / n, (y + n) / n;
    assert n * (c - a - 1) == y % n - (y + n) % n;
    if c > a + 1 {
      Multiple(n, c - a - 1);
    } else if c < a + 1 {
      Multiple(n, a + 1 - c);
    }
  }

  lemma Multiple(n: nat, k: nat)
    requires k > 0
    ensures n * k >= n
  {
  }

  lemma {:induction false} LapsMore(n: nat, x: nat, q: nat)
    requires n > 0
    ensures (x + Times(q, n)) % n == x % n && (x + Times(q, n)) / n == x / n + q
  {
    if q > 0 {
      LapsMore(n, x, q - 1);
      OneLapMore(n, x + Times(q - 1, n));
    }
  }

  lemma Split(n: nat, x: nat)
    requires n > 0
    ensures x == Times(x / n, n) + x % n
  {
    TimesIs(x / n, n);
  }

  lemma ModAdd(n: nat, x: nat, y: nat)
    requires n > 0
    ensures (x % n + y) % n == (x + y) % n
  {
    Split(n, x);
    LapsMore(n, x % n + y, x / n);
  }

  /** How far ahead of `c` slot `j` lies. */
  function Ahead(n: nat, c: nat, j: nat): (r: nat)
    requires c < n && j < n
    ensures r < n
  {
    if j >= c then j - c else j + n - c
  }

  lemma SlotAhead(n: nat, c: nat, p: nat, j: nat)
    requires c < n && j < n && p < n
    ensures Slot(n, c, p) == j <==> p == Ahead(n, c, j)
  {
    WithinTwoLaps(n, c + p);
  }

  lemma WithinTwoLaps(n: nat, x: nat)
    requires x < 2 * n
    ensures x % n == if x < n then x else x - n
  {
    if x >= n { OneLapMore(n, x - n); }
    SmallRemainder(n, if x < n then x else x - n);
  }

  lemma SmallRemainder(n: nat, x: nat)
    requires x < n
    ensures x % n == x
  {
  }

  /** After `q` laps and `p` turns more, a slot has come up once a lap, and once more if it lies in the last part. */
  lemma {:induction false} TurnsCounted(n: nat, c: nat, q: nat, p: nat, j: nat)
    requires c < n && j < n && p < n
    ensures Count(Turns(n, c, Times(q, n) + p), j) == q + if Ahead(n, c, j) < p then 1 else 0
    decreases q, p
  {
    hide Slot, Ahead;
    var m := Times(q, n) + p;
    if m > 0 {
      assert Turns(n, c, m)[..m - 1] == Turns(n, c, m - 1);
      if p > 0 {
        TurnsCounted(n, c, q, p - 1, j);
        LapSlot(n, c, q, p - 1, j);
      } else {
        assert m - 1 == Times(q - 1, n) + (n - 1);
        TurnsCounted(n, c, q - 1, n - 1, j);
        LapSlot(n, c, q - 1, n - 1, j);
      }
    }
  }

  lemma LapSlot(n: nat, c: nat, q: nat, p: nat, j: nat)
    requires c < n && j < n && p < n
    ensures Slot(n, c, Times(q, n) + p) == j <==> p == Ahead(n, c, j)
  {
    LapsMore(n, c + p, q);
    SlotAhead(n, c, p, j);
  }

  // ----- Driving -------------------------------------------------------------------------------

  /** The slots of `k` drives of `d` turns each, the cursor moving on by `d` after every drive. */
  function Drives(n: nat, cursor: nat, d: nat, k: nat): seq<nat>
    requires n > 0
    decreases k
  {
    if k == 0 then [] else Turns(n, cursor, d) + Drives(n, (cursor + d) % n, d, k - 1)
  }

  lemma {:induction false} DrivesAreTurns(n: nat, c: nat, d: nat, k: nat)
    requires n > 0
    ensures Drives(n, c, d, k) == Turns(n, c, Times(k, d))
    decreases k
  {
    hide Slot;
    if k > 0 {
      var next := (c + d) % n;
      DrivesAreTurns(n, next, d, k - 1);
      var all, first, rest := Turns(n, c, Times(k, d)), Turns(n, c, d), Turns(n, next, Times(k - 1, d));
      forall t | 0 <= t < |all| ensures all[t] == (first + rest)[t] {
        if t >= d { TurnsJoin(n, c, d, t - d); }
      }
      assert all == first + rest;
    }
  }

  lemma TurnsJoin(n: nat, c: nat, d: nat, t: nat)
    requires n > 0
    ensures Slot(n, (c + d) % n, t) == Slot(n, c, d + t)
  {
    ModAdd(n, c + d, t);
  }

  /**
   * With a stable registry of `n` groups, after `k` drives of `d` turns every slot has come up as often as
   * any other, to within one: k*d/n times, rounded down or up.
   */
  lemma FairTurns(n: nat, c: nat, d: nat, k: nat, j: nat)
    requires c < n && j < n
    ensures k * d >= 0
    ensures (k * d) / n <= Count(Drives(n, c, d, k), j) <= (k * d + n - 1) / n
  {
    TimesIs(k, d);
    DrivesAreTurns(n, c, d, k);
    Fair(n, c, Times(k, d), j);
  }

  lemma Fair(n: nat, c: nat, m: nat, j: nat)
    requires c < n && j < n
    ensures m / n <= Count(Turns(n, c, m), j) <= (m + n - 1) / n
  {
    hide Turns, Count, Times;
    var q, p := m / n, m % n;
    Split(n, m);
    TurnsCounted(n, c, q, p, j);
    RoundedUp(n, m);
  }

  lemma RoundedUp(n: nat, m: nat)
    requires n > 0
    ensures (m + n - 1) / n == m / n + if m % n > 0 then 1 else 0
  {
    Split(n, m);
    var p := m % n;
    if p > 0 {
      LapsMore(n, p - 1, m / n + 1);
      assert m + n - 1 == (p - 1) + Times(m / n + 1, n);
    } else {
      LapsMore(n, n - 1, m / n);
    }
  }

  // ----- Sweeping for snapshots ----------------------------------------------------------------

  function Sum(ms: seq<nat>): nat { if ms == [] then 0 else Sum(ms[..|ms| - 1]) + ms[|ms| - 1] }

  /** `inspected[i]` groups are looked at in tick `i`: at least the budget, or all there are. */
  ghost predicate IsSweep(n: nat, budget: nat, inspected: seq<nat>) {
    forall i :: 0 <= i < |inspected| ==> Min(budget, n) <= inspected[i] <= n
  }

  lemma {:induction false} SumAtLeast(n: nat, budget: nat, inspected: seq<nat>)
    requires IsSweep(n, budget, inspected)
    ensures Sum(inspected) >= n || Sum(inspected) >= Times(|inspected|, budget)
  {
    if inspected != [] {
      var k := |inspected| - 1;
      SumAtLeast(n, budget, inspected[..k]);
    }
  }

  /** The tick in which the sweep gets to turn `t`, and how far into that tick. */
  lemma {:induction false} TickOfTurn(inspected: seq<nat>, t: nat) returns (i: nat, offset: nat)
    requires t < Sum(inspected)
    ensures i < |inspected| && offset < inspected[i] && Sum(inspected[..i]) + offset == t
  {
    var k := |inspected| - 1;
    if t < Sum(inspected[..k]) {
      i, offset := TickOfTurn(inspected[..k], t);
      assert inspected[..k][..i] == inspected[..i];
    } else {
      i, offset := k, t - Sum(inspected[..k]);
    }
  }

  /** Within n/budget ticks, rounded up, every group is inspected: in some tick it is among those the cursor passes. */
  lemma EveryGroupInspected(n: nat, budget: nat, c: nat, inspected: seq<nat>, j: nat) returns (i: nat, offset: nat)
    requires c < n && j < n && budget > 0 && IsSweep(n, budget, inspected)
    requires |inspected| == (n + budget - 1) / budget
    ensures i < |inspected| && offset < inspected[i]
    ensures Slot(n, Slot(n, c, Sum(inspected[..i])), offset) == j
  {
    hide Times, Ahead;
    SumAtLeast(n, budget, inspected);
    RoundsUp(n, budget);
    var t := Ahead(n, c, j);
    i, offset := TickOfTurn(inspected, t);
    SlotAhead(n, c, t, j);
    TurnsJoin(n, c, Sum(inspected[..i]), offset);
  }

  lemma RoundsUp(n: nat, budget: nat)
    requires budget > 0
    ensures Times((n + budget - 1) / budget, budget) >= n
  {
    Split(budget, n + budget - 1);
  }

  // ----- The host's two cursors ----------------------------------------------------------------

  /** What the host finds at a group when its turn for a snapshot comes. */
  datatype SnapshotAnswer = NotRunning | NotDue | Taken | Failed

  predicate Attempted(a: SnapshotAnswer) { a.Taken? || a.Failed? }

  function Attempts(answers: seq<SnapshotAnswer>): nat {
    if answers == [] then 0
    else Attempts(answers[..|answers| - 1]) + if Attempted(answers[|answers| - 1]) then 1 else 0
  }

  /** The attempts of a sweep are the answers that took a snapshot or failed to. */
  lemma {:induction false} AttemptsCounted(answers: seq<SnapshotAnswer>)
    ensures Attempts(answers) == |set i: nat | i < |answers| && answers[i] in {Taken, Failed}|
  {
    if answers != [] {
      var k := |answers| - 1;
      AttemptsCounted(answers[..k]);
      var all, front := set i: nat | i < |answers| && answers[i] in {Taken, Failed},
                        set i: nat | i < k && answers[..k][i] in {Taken, Failed};
      assert all == front + if answers[k] in {Taken, Failed} then {k} else {};
    }
  }

  /** `driven` is what runs at the slots, one after the other: `at` lists the turns that were driven. */
  ghost predicate DrivenAt(runs: U64 -> bool, groupIds: seq<U64>, slots: seq<nat>, at: seq<nat>, driven: seq<U64>) {
    && |at| == |driven| && (forall t :: 0 <= t < |slots| ==> slots[t] < |groupIds|)
    && (forall k :: 0 <= k < |at| ==> at[k] < |slots| && driven[k] == groupIds[slots[at[k]]])
    && (forall k, l :: 0 <= k < l < |at| ==> at[k] < at[l])
    && (forall t :: 0 <= t < |slots| ==> (t in at <==> runs(groupIds[slots[t]])))
  }

  class Host {
    const groupIds: seq<U64>
    const driveBudget: nat
    const snapshotBudget: nat
    var roundRobinCursor: nat
    var snapshotCursor: nat

    constructor (groupIds: seq<U64>, driveBudget: nat, snapshotBudget: nat)
      ensures this.groupIds == groupIds && this.driveBudget == driveBudget && this.snapshotBudget == snapshotBudget
      ensures roundRobinCursor == 0 && snapshotCursor == 0
    {
      this.groupIds, this.driveBudget, this.snapshotBudget := groupIds, driveBudget, snapshotBudget;
      roundRobinCursor, snapshotCursor := 0, 0;
    }

    /** One drive: the next groups round, each driven unless it is terminal or stopping. */
    method DriveRoundRobin(runs: U64 -> bool) returns (slots: seq<nat>, driven: seq<U64>)
      requires groupIds != []
      modifies this`roundRobinCursor
      ensures slots == Turns(|groupIds|, old(roundRobinCursor), Min(driveBudget, |groupIds|))
      ensures roundRobinCursor == (old(roundRobinCursor) + Min(driveBudget, |groupIds|)) % |groupIds|
      ensures exists at :: DrivenAt(runs, groupIds, slots, at, driven)
    {
      slots, driven := [], [];
      ghost var at: seq<nat> := [];
      var count := Min(driveBudget, |groupIds|);
      for offset := 0 to count
        invariant roundRobinCursor == old(roundRobinCursor)
        invariant slots == Turns(|groupIds|, roundRobinCursor, offset)
        invariant DrivenAt(runs, groupIds, slots, at, driven)
      {
        var index := (roundRobinCursor + offset) % |groupIds|;
        ghost var before := at;
        slots := slots + [index];
        assert index == Slot(|groupIds|, roundRobinCursor, offset);
        var g := groupIds[index];
        if runs(g) {
          driven := driven + [g];
          at := at + [offset];
          assert at[|before|] == offset && forall t :: t in before ==> t in at;
        }
      }
      roundRobinCursor := (roundRobinCursor + count) % |groupIds|;
    }

    /** One sweep: it goes on round until the attempts use up the budget or every group was inspected once. */
    method DriveAutomaticSnapshots(answer: U64 -> SnapshotAnswer) returns (inspected: nat, answers: seq<SnapshotAnswer>)
      modifies this`snapshotCursor
      ensures snapshotBudget == 0 || groupIds == [] ==> inspected == 0 && snapshotCursor == old(snapshotCursor)
      ensures |answers| == inspected && |set i: nat | i < inspected && answers[i] in {Taken, Failed}| <= snapshotBudget
      ensures snapshotBudget > 0 && groupIds != [] ==>
        && Min(snapshotBudget, |groupIds|) <= inspected <= |groupIds|
        && (inspected < |groupIds| ==> |set i: nat | i < inspected && answers[i] in {Taken, Failed}| == snapshotBudget)
        && (forall i :: 0 <= i < inspected ==>
              answers[i] == answer(groupIds[Slot(|groupIds|, old(snapshotCursor), i)]))
        && snapshotCursor == Slot(|groupIds|, old(snapshotCursor), inspected)
    {
      inspected, answers := 0, [];
      if snapshotBudget == 0 || |groupIds| == 0 { return; }
      var attempts := 0;
      while inspected < |groupIds| && attempts < snapshotBudget
        invariant inspected <= |groupIds| && attempts <= snapshotBudget && attempts <= inspected
        invariant snapshotCursor == old(snapshotCursor)
        invariant |answers| == inspected && attempts == Attempts(answers)
        invariant forall i :: 0 <= i < inspected ==>
          answers[i] == answer(groupIds[Slot(|groupIds|, snapshotCursor, i)])
      {
        var index := (snapshotCursor + inspected) % |groupIds|;
        var a := answer(groupIds[index]);
        assert (answers + [a])[..|answers|] == answers;
        answers := answers + [a];
        if a == Taken || a == Failed { attempts := attempts + 1; }
        inspected := inspected + 1;
      }
      AttemptsCounted(answers);
      snapshotCursor := (snapshotCursor + inspected) % |groupIds|;
    }
  }
}

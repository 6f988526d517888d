/** Linearizability of finite register histories, and the stepwise searches that decide it. */
module Linearizability {
  import opened Common

  datatype Kind = Read | Write

  /** One client operation; `returned` is -1 while no response has been seen. */
  datatype Op = Op(id: string, kind: Kind, value: string, result: string, invoked: int, returned: int) {
    predicate Completed() { returned >= 0 }
    predicate PendingRead() { kind == Read && !Completed() }
  }

  /** `a` responded strictly before `b` was invoked. */
  predicate Precedes(a: Op, b: Op) { 0 <= a.returned < b.invoked }

  /** Distinct operations with identities, no response before its invocation. */
  ghost predicate WellFormed(ops: seq<Op>) {
    && (forall i, j :: 0 <= i < j < |ops| ==> ops[i].id != ops[j].id)
    && (forall o :: o in ops ==> o.returned == -1 || o.returned >= o.invoked)
  }

  // ----- Linearizability, as Herlihy and Wing define it ----------------------------------------

  /** After the first `i` operations the register holds `v`: the last write decides, empty without one. */
  ghost predicate Holds(lin: seq<Op>, i: nat, v: string)
    requires i <= |lin|
  {
    || (exists w :: 0 <= w < i && lin[w].kind == Write && lin[w].value == v
          && forall x :: w < x < i ==> lin[x].kind == Read)
    || (v == "" && forall x :: 0 <= x < i ==> lin[x].kind == Read)
  }

  /**
   * A sequential order that explains a history: each operation once, every completed one included
   * and pending ones only as needed, real-time order respected, and every completed read returning
   * what the register held. A pending read has no response yet, so any is allowed to it.
   */
  ghost predicate Linearization(ops: seq<Op>, lin: seq<Op>) {
    && Distinct(lin)
    && (forall o :: o in lin ==> o in ops)
    && (forall o :: o in ops && o.Completed() ==> o in lin)
    && (forall i, j :: 0 <= i < j < |lin| ==> !Precedes(lin[j], lin[i]))
    && (forall i :: 0 <= i < |lin| && lin[i].kind == Read && lin[i].Completed() ==> Holds(lin, i, lin[i].result))
  }

  ghost predicate Linearizable(ops: seq<Op>) {
    exists lin :: Linearization(ops, lin)
  }

  // ----- Checking one step at a time -----------------------------------------------------------

  /** The register after a sequence of operations. */
  function RegisterAfter(lin: seq<Op>): string {
    if lin == [] then ""
    else if lin[|lin| - 1].kind == Write then lin[|lin| - 1].value
    else RegisterAfter(lin[..|lin| - 1])
  }

  /** What replay asks before it lets `o` follow `before`. */
  ghost predicate Selectable(ops: seq<Op>, before: seq<Op>, o: Op) {
    && o in ops && o !in before && !o.PendingRead()
    && (forall p :: p in ops && Precedes(p, o) ==> p in before)
    && (o.kind == Read ==> o.result == RegisterAfter(before))
  }

  ghost predicate StepLegal(ops: seq<Op>, lin: seq<Op>) {
    lin == [] || (StepLegal(ops, lin[..|lin| - 1]) && Selectable(ops, lin[..|lin| - 1], lin[|lin| - 1]))
  }

  ghost predicate Complete(ops: seq<Op>, lin: seq<Op>) {
    forall o :: o in ops && o.Completed() ==> o in lin
  }

  lemma {:induction false} RegisterMeaning(lin: seq<Op>, v: string)
    ensures Holds(lin, |lin|, v) <==> v == RegisterAfter(lin)
  {
    if lin != [] {
      var n := |lin| - 1;
      var front := lin[..n];
      if lin[n].kind == Write {
        assert forall u :: Holds(lin, |lin|, u) ==> u == lin[n].value;
        assert Holds(lin, |lin|, lin[n].value);
      } else {
        HoldsSkipsRead(lin, v);
        RegisterMeaning(front, v);
      }
    }
  }

  lemma HoldsSkipsRead(lin: seq<Op>, v: string)
    requires lin != [] && lin[|lin| - 1].kind == Read
    ensures Holds(lin, |lin|, v) <==> Holds(lin[..|lin| - 1], |lin| - 1, v)
  {
    var n := |lin| - 1;
    var front := lin[..n];
    forall w | 0 <= w < n && lin[w].kind == Write && lin[w].value == v
      ensures (forall x :: w < x < |lin| ==> lin[x].kind == Read) <==> forall x :: w < x < n ==> front[x].kind == Read
    {
      assert front[w] == lin[w];
    }
    assert forall w :: 0 <= w < n ==> front[w] == lin[w];
    assert (forall x :: 0 <= x < n ==> front[x].kind == Read) <==> (forall x :: 0 <= x < |lin| ==> lin[x].kind == Read);
  }

  lemma RegisterAfterNext(lin: seq<Op>, o: Op)
    ensures RegisterAfter(lin + [o]) == if o.kind == Write then o.value else RegisterAfter(lin)
  {
    assert (lin + [o])[..|lin|] == lin;
  }

  lemma HoldsPrefix(lin: seq<Op>, i: nat, v: string)
    requires i <= |lin|
    ensures Holds(lin, i, v) <==> v == RegisterAfter(lin[..i])
  {
    RegisterMeaning(lin[..i], v);
    var front := lin[..i];
    assert forall x :: 0 <= x < i ==> front[x] == lin[x];
    assert Holds(lin, i, v) <==> Holds(front, i, v);
  }

  /** Everything the stepwise check has accepted so far, seen as a whole. */
  lemma {:induction false} StepLegalPrefix(ops: seq<Op>, lin: seq<Op>, k: nat)
    requires StepLegal(ops, lin) && k <= |lin|
    ensures StepLegal(ops, lin[..k])
    ensures k < |lin| ==> Selectable(ops, lin[..k], lin[k])
  {
    if k == |lin| {
      assert lin[..k] == lin;
    } else if k == |lin| - 1 {
    } else {
      assert lin[..|lin| - 1][..k] == lin[..k];
      StepLegalPrefix(ops, lin[..|lin| - 1], k);
    }
  }

  /** Step by step is enough: a complete order accepted that way is a linearization. */
  lemma StepLegalSound(ops: seq<Op>, lin: seq<Op>)
    requires StepLegal(ops, lin) && Complete(ops, lin)
    ensures Linearization(ops, lin)
  {
    forall i | 0 <= i < |lin|
      ensures lin[i] in ops && lin[i] !in lin[..i] && (lin[i].kind == Read ==> Holds(lin, i, lin[i].result))
    {
      StepLegalPrefix(ops, lin, i);
      HoldsPrefix(lin, i, lin[i].result);
    }
    forall i, j | 0 <= i < j < |lin| ensures lin[i] != lin[j] {
      assert lin[i] == lin[..j][i];
    }
    assert Distinct(lin);
    forall i, j | 0 <= i < j < |lin| ensures !Precedes(lin[j], lin[i]) {
      StepLegalPrefix(ops, lin, i);
      assert lin[j] in ops && lin[j] !in lin[..i];
    }
  }

  /** An order without its pending reads, which explain nothing. */
  function WithoutPendingReads(lin: seq<Op>): seq<Op> {
    if lin == [] then []
    else
      var front, last := WithoutPendingReads(lin[..|lin| - 1]), lin[|lin| - 1];
      if last.PendingRead() then front else front + [last]
  }

  lemma {:induction false} WithoutPendingReadsKeeps(lin: seq<Op>)
    ensures forall o :: o in WithoutPendingReads(lin) <==> o in lin && !o.PendingRead()
    ensures RegisterAfter(WithoutPendingReads(lin)) == RegisterAfter(lin)
  {
    if lin != [] {
      var front, last := lin[..|lin| - 1], lin[|lin| - 1];
      var kept := WithoutPendingReads(front);
      WithoutPendingReadsKeeps(front);
      RegisterAfterNext(kept, last);
      forall o ensures o in WithoutPendingReads(lin) <==> o in lin && !o.PendingRead() {
        InFrontOrLast(lin, o);
      }
    }
  }

  lemma PredecessorsComeFirst(ops: seq<Op>, lin: seq<Op>, k: nat, p: Op)
    requires WellFormed(ops) && Linearization(ops, lin) && k < |lin|
    requires p in ops && Precedes(p, lin[k])
    ensures p in WithoutPendingReads(lin[..k])
  {
    var j :| 0 <= j < |lin| && lin[j] == p;
    assert p.returned >= p.invoked;
    assert j < k;
    assert lin[..k][j] == p;
    WithoutPendingReadsKeeps(lin[..k]);
  }

  lemma NextSelectable(ops: seq<Op>, lin: seq<Op>, k: nat)
    requires WellFormed(ops) && Linearization(ops, lin) && k < |lin| && !lin[k].PendingRead()
    ensures Selectable(ops, WithoutPendingReads(lin[..k]), lin[k])
  {
    hide Holds;
    var before, o := WithoutPendingReads(lin[..k]), lin[k];
    WithoutPendingReadsKeeps(lin[..k]);
    forall p | p in ops && Precedes(p, o) ensures p in before {
      PredecessorsComeFirst(ops, lin, k, p);
    }
    if o.kind == Read { HoldsPrefix(lin, k, o.result); }
    assert o !in lin[..k];
  }

  lemma {:induction false} StepLegalComplete(ops: seq<Op>, lin: seq<Op>, k: nat)
    requires WellFormed(ops) && Linearization(ops, lin) && k <= |lin|
    ensures StepLegal(ops, WithoutPendingReads(lin[..k]))
  {
    if k > 0 {
      var n := k - 1;
      var before, o := WithoutPendingReads(lin[..n]), lin[n];
      StepLegalComplete(ops, lin, n);
      assert lin[..k][..n] == lin[..n];
      if !o.PendingRead() {
        NextSelectable(ops, lin, n);
        assert (before + [o])[..|before|] == before;
      }
    }
  }

  /** A history is linearizable exactly when some order passes the stepwise check and leaves nothing out. */
  lemma LinearizableIffReplayable(ops: seq<Op>)
    requires WellFormed(ops)
    ensures Linearizable(ops) <==> exists lin :: StepLegal(ops, lin) && Complete(ops, lin)
  {
    if Linearizable(ops) {
      var lin :| Linearization(ops, lin);
      StepLegalComplete(ops, lin, |lin|);
      assert lin[..|lin|] == lin;
      WithoutPendingReadsKeeps(lin);
      assert StepLegal(ops, WithoutPendingReads(lin)) && Complete(ops, WithoutPendingReads(lin));
    }
    if lin :| StepLegal(ops, lin) && Complete(ops, lin) {
      StepLegalSound(ops, lin);
    }
  }

  // ----- The merged search ---------------------------------------------------------------------

  /** A search state remembers which operations were selected, not in what order. */
  datatype SearchState = SearchState(done: set<Op>, value: string)

  const START := SearchState({}, "")

  ghost predicate CanLinearize(ops: seq<Op>, s: SearchState, o: Op) {
    && o in ops && o !in s.done && !o.PendingRead()
    && (forall p :: p in ops && Precedes(p, o) ==> p in s.done)
    && (o.kind == Write || o.result == s.value)
  }

  function Linearize(s: SearchState, o: Op): SearchState {
    SearchState(s.done + {o}, if o.kind == Write then o.value else s.value)
  }

  /** All states the search can be in after `k` selections. */
  ghost function Level(ops: seq<Op>, k: nat): set<SearchState> {
    if k == 0 then {START}
    else set s, o | s in Level(ops, k - 1) && o in ops && CanLinearize(ops, s, o) :: Linearize(s, o)
  }

  /** The search succeeds: within as many steps as there are operations it has selected every completed one. */
  ghost predicate SearchSucceeds(ops: seq<Op>) {
    exists k, s :: 0 <= k <= |ops| && s in Level(ops, k) && forall o :: o in ops && o.Completed() ==> o in s.done
  }

  function Merged(lin: seq<Op>): SearchState { SearchState(SetOf(lin), RegisterAfter(lin)) }

  lemma MergedStep(ops: seq<Op>, lin: seq<Op>, o: Op)
    ensures Selectable(ops, lin, o) <==> CanLinearize(ops, Merged(lin), o)
    ensures Merged(lin + [o]) == Linearize(Merged(lin), o)
  {
    SetOfAppend(lin, [o]);
    assert SetOf([o]) == {o};
    assert (lin + [o])[..|lin|] == lin;
  }

  lemma {:induction false} OrderIsSearched(ops: seq<Op>, lin: seq<Op>)
    requires StepLegal(ops, lin)
    ensures Merged(lin) in Level(ops, |lin|)
  {
    if lin == [] {
      assert SetOf(lin) == {};
    } else {
      var n := |lin| - 1;
      OrderIsSearched(ops, lin[..n]);
      assert lin == lin[..n] + [lin[n]];
      MergedStep(ops, lin[..n], lin[n]);
    }
  }

  lemma {:induction false} SearchedHasOrder(ops: seq<Op>, k: nat, s: SearchState) returns (lin: seq<Op>)
    requires s in Level(ops, k)
    ensures StepLegal(ops, lin) && Merged(lin) == s
  {
    if k == 0 {
      lin := [];
      assert SetOf<Op>([]) == {};
    } else {
      var t, o :| t in Level(ops, k - 1) && o in ops && CanLinearize(ops, t, o) && s == Linearize(t, o);
      var front := SearchedHasOrder(ops, k - 1, t);
      MergedStep(ops, front, o);
      lin := front + [o];
      assert lin[..|lin| - 1] == front;
    }
  }

  lemma StepLegalLength(ops: seq<Op>, lin: seq<Op>)
    requires StepLegal(ops, lin)
    ensures Distinct(lin) && |lin| <= |ops|
  {
    forall i | 0 <= i < |lin| ensures lin[i] in ops && lin[i] !in lin[..i] { StepLegalPrefix(ops, lin, i); }
    forall i, j | 0 <= i < j < |lin| ensures lin[i] != lin[j] { assert lin[i] == lin[..j][i]; }
    DistinctCardinality(lin);
    SubsetCardinality(SetOf(lin), SetOf(ops));
    SetOfBound(ops);
  }

  /** Merging orders that reach the same selection and value loses no linearizable history. */
  lemma SearchDecides(ops: seq<Op>)
    requires WellFormed(ops)
    ensures SearchSucceeds(ops) <==> Linearizable(ops)
  {
    LinearizableIffReplayable(ops);
    if Linearizable(ops) {
      var lin :| StepLegal(ops, lin) && Complete(ops, lin);
      StepLegalLength(ops, lin);
      OrderIsSearched(ops, lin);
      assert forall o :: o in ops && o.Completed() ==> o in Merged(lin).done;
    }
    if SearchSucceeds(ops) {
      var k, s :| 0 <= k <= |ops| && s in Level(ops, k) && forall o :: o in ops && o.Completed() ==> o in s.done;
      var lin := SearchedHasOrder(ops, k, s);
      assert Complete(ops, lin) by {
        forall o | o in ops && o.Completed() ensures o in lin { assert o in Merged(lin).done; }
      }
    }
  }
}

/** The register-history checker: history validation, replay of an order, and witness verification. */
module HistoryCheck {
  import opened Common
  import opened Linearizability

  datatype HistoryError =
    | UnsupportedHistory
    | InvalidOrder
    | UnknownOrRepeated
    | PendingReadSelected
    | PrecedenceViolated
    | ReadMismatch
    | CompletedOmitted
    | InvalidTrace
    | ValuesDisagree

  // ----- Which histories are checked at all ----------------------------------------------------

  function Utf8Length(s: string): nat {
    if s == [] then 0 else Utf8Length(s[..|s| - 1]) + Utf8Width(s[|s| - 1] as int)
  }

  function Utf8Width(c: int): nat {
    if c < 0x80 then 1 else if c < 0x800 then 2 else if c < 0x10000 then 3 else 4
  }

  predicate SupportedOp(o: Op) {
    && 0 < |o.id| <= 9000
    && Utf8Length(o.value) <= 8192 && Utf8Length(o.result) <= 8192
    && 0 <= o.invoked <= 1000 && -1 <= o.returned <= 1000
    && (o.returned == -1 || o.returned >= o.invoked)
    && (o.kind == Read ==> o.value == "")
    && (o.kind == Write ==> o.result == "")
    && (o.returned == -1 ==> o.result == "")
  }

  ghost predicate Supported(ops: seq<Op>) {
    && 0 < |ops| <= 16
    && (forall i :: 0 <= i < |ops| ==> SupportedOp(ops[i]))
    && (forall i, j :: 0 <= i < j < |ops| ==> ops[i].id != ops[j].id)
    && (exists i :: 0 <= i < |ops| && ops[i].Completed())
  }

  lemma SupportedIsWellFormed(ops: seq<Op>)
    requires Supported(ops)
    ensures WellFormed(ops)
  {
  }

  method ValidateHistory(ops: seq<Op>) returns (ok: bool)
    ensures ok == Supported(ops)
  {
    if !(0 < |ops| <= 16) { return false; }
    var ids: set<string> := {};
    var anyCompleted := false;
    for k := 0 to |ops|
      invariant ids == set i | 0 <= i < k :: ops[i].id
      invariant forall i :: 0 <= i < k ==> SupportedOp(ops[i])
      invariant forall i, j :: 0 <= i < j < k ==> ops[i].id != ops[j].id
      invariant anyCompleted <==> exists i :: 0 <= i < k && ops[i].Completed()
    {
      if !SupportedOp(ops[k]) || ops[k].id in ids { return false; }
      ids := ids + {ops[k].id};
      if ops[k].Completed() { anyCompleted := true; }
    }
    return anyCompleted;
  }

  // ----- Replay --------------------------------------------------------------------------------

  datatype Witness = Witness(order: seq<string>, values: seq<string>, omitted: seq<string>)

  ghost predicate Names(lin: seq<Op>, order: seq<string>) {
    |lin| == |order| && forall i :: 0 <= i < |lin| ==> lin[i].id == order[i]
  }

  /** `order` names an order that passes the stepwise check and leaves no completed operation out. */
  ghost predicate Accepted(ops: seq<Op>, order: seq<string>) {
    exists lin :: Names(lin, order) && StepLegal(ops, lin) && Complete(ops, lin)
  }

  /** The register after each prefix, starting from the empty one. */
  ghost predicate AreValues(lin: seq<Op>, values: seq<string>) {
    |values| == |lin| + 1 && forall i :: 0 <= i <= |lin| ==> values[i] == RegisterAfter(lin[..i])
  }

  ghost function IdsOf(lin: seq<Op>): set<string> { set o | o in lin :: o.id }

  lemma SameId(ops: seq<Op>, a: Op, b: Op)
    requires WellFormed(ops) && a in ops && b in ops && a.id == b.id
    ensures a == b
  {
    var i :| 0 <= i < |ops| && ops[i] == a;
    var j :| 0 <= j < |ops| && ops[j] == b;
    assert i == j;
  }

  lemma {:induction false} StepLegalKnown(ops: seq<Op>, lin: seq<Op>)
    requires StepLegal(ops, lin)
    ensures forall o :: o in lin ==> o in ops
  {
    if lin != [] {
      StepLegalKnown(ops, lin[..|lin| - 1]);
      assert lin == lin[..|lin| - 1] + [lin[|lin| - 1]];
    }
  }

  /** Identities determine the order: two accepted orders with the same names are the same. */
  lemma NamesUnique(ops: seq<Op>, a: seq<Op>, b: seq<Op>, order: seq<string>)
    requires WellFormed(ops) && StepLegal(ops, a) && StepLegal(ops, b)
    requires Names(a, order) && Names(b, order)
    ensures a == b
  {
    StepLegalKnown(ops, a);
    StepLegalKnown(ops, b);
    forall i | 0 <= i < |a| ensures a[i] == b[i] { SameId(ops, a[i], b[i]); }
  }

  /** If nothing of the required name may come next, no order of these names is accepted. */
  lemma StuckMeansRejected(ops: seq<Op>, order: seq<string>, lin: seq<Op>)
    requires WellFormed(ops) && StepLegal(ops, lin) && |lin| < |order| && Names(lin, order[..|lin|])
    requires forall o :: o in ops && o.id == order[|lin|] ==> !Selectable(ops, lin, o)
    ensures !Accepted(ops, order)
  {
    var n := |lin|;
    forall full: seq<Op> | StepLegal(ops, full) && |full| == |order| && Names(full[..n], order[..n])
      ensures full[n].id != order[n]
    {
      StepLegalPrefix(ops, full, n);
      NamesUnique(ops, full[..n], lin, order[..n]);
      StepLegalKnown(ops, full);
      assert full[n] in full;
    }
    assert forall full: seq<Op> :: Names(full, order) ==> Names(full[..n], order[..n]) && full[n].id == order[n];
  }

  method PredecessorsDone(ops: seq<Op>, op: Op, done: set<string>) returns (ok: bool)
    ensures ok <==> forall p :: p in ops && Precedes(p, op) ==> p.id in done
  {
    for i := 0 to |ops|
      invariant forall j :: 0 <= j < i && Precedes(ops[j], op) ==> ops[j].id in done
    {
      if Precedes(ops[i], op) && ops[i].id !in done { return false; }
    }
    return true;
  }

  method CompletedDone(ops: seq<Op>, done: set<string>) returns (ok: bool)
    ensures ok <==> forall p :: p in ops && p.Completed() ==> p.id in done
  {
    for i := 0 to |ops|
      invariant forall j :: 0 <= j < i && ops[j].Completed() ==> ops[j].id in done
    {
      if ops[i].Completed() && ops[i].id !in done { return false; }
    }
    return true;
  }

  method IndexById(ops: seq<Op>) returns (byId: map<string, Op>)
    requires WellFormed(ops)
    ensures forall o :: o in ops ==> o.id in byId && byId[o.id] == o
    ensures forall id :: id in byId ==> byId[id] in ops && byId[id].id == id
  {
    byId := map[];
    for i := 0 to |ops|
      invariant forall j :: 0 <= j < i ==> ops[j].id in byId && byId[ops[j].id] == ops[j]
      invariant forall id :: id in byId ==> byId[id] in ops && byId[id].id == id
    {
      byId := byId[ops[i].id := ops[i]];
    }
  }

  /** The identities not in `done`, in the order of the history. */
  function LeftOut(ops: seq<Op>, done: set<string>): seq<string> {
    if ops == [] then []
    else LeftOut(ops[..|ops| - 1], done) + if ops[|ops| - 1].id in done then [] else [ops[|ops| - 1].id]
  }

  method Omitted(ops: seq<Op>, done: set<string>) returns (omitted: seq<string>)
    ensures omitted == LeftOut(ops, done)
  {
    omitted := [];
    for i := 0 to |ops|
      invariant omitted == LeftOut(ops[..i], done)
    {
      assert ops[..i + 1][..i] == ops[..i];
      if ops[i].id !in done { omitted := omitted + [ops[i].id]; }
    }
    assert ops[..|ops|] == ops;
  }

  /** `places` names a part of the history, in its order. */
  ghost predicate Picks(ops: seq<Op>, places: seq<nat>, ids: seq<string>) {
    && |places| == |ids|
    && (forall k :: 0 <= k < |places| ==> places[k] < |ops| && ids[k] == ops[places[k]].id)
    && forall k, l :: 0 <= k < l < |places| ==> places[k] < places[l]
  }

  /**
   * What an accepted order reports as omitted: exactly the operations it does not name, once each, in the order of
   * the history, and none of them completed.
   */
  ghost predicate Omits(ops: seq<Op>, order: seq<string>, omitted: seq<string>) {
    && (forall id :: id in omitted <==> id !in order && exists o :: o in ops && o.id == id)
    && Distinct(omitted) && (exists places :: Picks(ops, places, omitted))
    && forall o :: o in ops && o.id in omitted ==> !o.Completed()
  }

  lemma PicksNext(ops: seq<Op>, places: seq<nat>, ids: seq<string>)
    requires ops != [] && Picks(ops[..|ops| - 1], places, ids)
    ensures Picks(ops, places, ids) && Picks(ops, places + [|ops| - 1], ids + [ops[|ops| - 1].id])
  {
    var n := |ops| - 1;
    forall k | 0 <= k < |places| ensures places[k] < n && ids[k] == ops[places[k]].id {
      assert ops[..n][places[k]] == ops[places[k]];
    }
  }

  lemma {:induction false} LeftOutPicks(ops: seq<Op>, done: set<string>) returns (places: seq<nat>)
    ensures Picks(ops, places, LeftOut(ops, done))
  {
    hide Picks;
    if ops == [] {
      places := [];
      NonePicked();
    } else {
      var n := |ops| - 1;
      var before := LeftOutPicks(ops[..n], done);
      PicksNext(ops, before, LeftOut(ops[..n], done));
      places := if ops[n].id in done then before else before + [n];
      assert LeftOut(ops[..n], done) + [] == LeftOut(ops[..n], done);
    }
  }

  lemma NonePicked()
    ensures Picks([], [], [])
  {
  }

  lemma {:induction false} LeftOutIds(ops: seq<Op>, done: set<string>, id: string)
    ensures id in LeftOut(ops, done) <==> id !in done && exists o :: o in ops && o.id == id
  {
    if ops != [] {
      LeftOutIds(ops[..|ops| - 1], done, id);
      IdInFrontOrLast(ops, id);
    }
  }

  lemma IdInFrontOrLast(ops: seq<Op>, id: string)
    requires ops != []
    ensures (exists o :: o in ops && o.id == id)
      <==> (exists o :: o in ops[..|ops| - 1] && o.id == id) || ops[|ops| - 1].id == id
  {
    if o :| o in ops && o.id == id { InFrontOrLast(ops, o); }
    if o :| o in ops[..|ops| - 1] && o.id == id { InFrontOrLast(ops, o); }
    InFrontOrLast(ops, ops[|ops| - 1]);
  }

  lemma PicksDistinct(ops: seq<Op>, places: seq<nat>, ids: seq<string>)
    requires WellFormed(ops) && Picks(ops, places, ids)
    ensures Distinct(ids)
  {
  }

  /** The names left out of an accepted order. */
  lemma LeftOutOmits(ops: seq<Op>, order: seq<string>)
    requires WellFormed(ops) && Accepted(ops, order)
    ensures Omits(ops, order, LeftOut(ops, SetOf(order)))
  {
    var places := LeftOutPicks(ops, SetOf(order));
    forall id ensures id in LeftOut(ops, SetOf(order)) <==> id !in order && exists o :: o in ops && o.id == id {
      LeftOutIds(ops, SetOf(order), id);
    }
    PicksDistinct(ops, places, LeftOut(ops, SetOf(order)));
    var lin :| Names(lin, order) && StepLegal(ops, lin) && Complete(ops, lin);
    forall o | o in ops && o.Completed() ensures o.id in order {
      var i :| 0 <= i < |lin| && lin[i] == o;
      assert order[i] == o.id;
    }
  }

  lemma SelectableById(ops: seq<Op>, lin: seq<Op>, o: Op, value: string)
    requires WellFormed(ops) && StepLegal(ops, lin) && o in ops && value == RegisterAfter(lin)
    ensures Selectable(ops, lin, o) <==>
      && o.id !in IdsOf(lin) && (o.Completed() || o.kind == Write)
      && (forall p :: p in ops && Precedes(p, o) ==> p.id in IdsOf(lin))
      && (o.kind == Read ==> o.result == value)
  {
    InById(ops, lin);
  }

  lemma InById(ops: seq<Op>, lin: seq<Op>)
    requires WellFormed(ops) && StepLegal(ops, lin)
    ensures forall p :: p in ops ==> (p in lin <==> p.id in IdsOf(lin))
  {
    StepLegalKnown(ops, lin);
    forall p | p in ops && p.id in IdsOf(lin) ensures p in lin {
      var q :| q in lin && q.id == p.id;
      SameId(ops, p, q);
    }
  }

  lemma StepExtends(ops: seq<Op>, lin: seq<Op>, o: Op, values: seq<string>)
    requires StepLegal(ops, lin) && Selectable(ops, lin, o) && AreValues(lin, values)
    ensures StepLegal(ops, lin + [o])
    ensures IdsOf(lin + [o]) == IdsOf(lin) + {o.id}
    ensures AreValues(lin + [o], values + [if o.kind == Write then o.value else values[|lin|]])
  {
    assert (lin + [o])[..|lin|] == lin;
    ValuesExtend(lin, o, values);
  }

  lemma ValuesExtend(lin: seq<Op>, o: Op, values: seq<string>)
    requires AreValues(lin, values)
    ensures AreValues(lin + [o], values + [if o.kind == Write then o.value else values[|lin|]])
  {
    hide RegisterAfter;
    var longer := lin + [o];
    RegisterAfterNext(lin, o);
    forall i | 0 <= i <= |lin| ensures longer[..i] == lin[..i] {}
    assert lin[..|lin|] == lin && longer[..|longer|] == longer;
  }

  /** Why `o`, which is there and not yet selected, may not follow `lin`: the first reason in this order. */
  ghost predicate HeldBack(ops: seq<Op>, lin: seq<Op>, o: Op, e: HistoryError) {
    if o.PendingRead() then e == PendingReadSelected
    else if exists p :: p in ops && Precedes(p, o) && p !in lin then e == PrecedenceViolated
    else o.kind == Read && o.result != RegisterAfter(lin) && e == ReadMismatch
  }

  /** Why replay stops at `identity` when it has selected `lin`. */
  ghost predicate StopsFor(ops: seq<Op>, lin: seq<Op>, identity: string, e: HistoryError) {
    if forall o :: o in ops && o.id == identity ==> o in lin then e == UnknownOrRepeated
    else exists o :: o in ops && o !in lin && o.id == identity && HeldBack(ops, lin, o, e)
  }

  ghost predicate StopsInside(ops: seq<Op>, order: seq<string>, lin: seq<Op>, e: HistoryError) {
    && StepLegal(ops, lin) && |lin| < |order| && Names(lin, order[..|lin|])
    && StopsFor(ops, lin, order[|lin|], e)
  }

  /** What replay refuses an order for. */
  ghost predicate RefusedFor(ops: seq<Op>, order: seq<string>, e: HistoryError) {
    if !Supported(ops) then e == UnsupportedHistory
    else if |order| > |ops| then e == InvalidOrder
    else
      || (exists lin :: StopsInside(ops, order, lin, e))
      || (e == CompletedOmitted && exists lin :: StepLegal(ops, lin) && Names(lin, order) && !Complete(ops, lin))
  }

  lemma StopsByHolding(ops: seq<Op>, lin: seq<Op>, o: Op, e: HistoryError)
    requires o in ops && o !in lin && HeldBack(ops, lin, o, e)
    ensures StopsFor(ops, lin, o.id, e)
  {
    hide HeldBack;
  }

  lemma UnknownStops(ops: seq<Op>, lin: seq<Op>, identity: string)
    requires forall o :: o in ops && o.id == identity ==> o in lin
    ensures StopsFor(ops, lin, identity, UnknownOrRepeated)
  {
  }

  /** The operation `identity` names, if it may be selected next. */
  method NextOp(ops: seq<Op>, byId: map<string, Op>, done: set<string>, value: string, identity: string,
    ghost lin: seq<Op>) returns (r: Result<Op, HistoryError>)
    requires WellFormed(ops) && StepLegal(ops, lin) && done == IdsOf(lin) && value == RegisterAfter(lin)
    requires forall o :: o in ops ==> o.id in byId && byId[o.id] == o
    requires forall id :: id in byId ==> byId[id] in ops && byId[id].id == id
    ensures r.Ok? ==> r.value.id == identity && Selectable(ops, lin, r.value)
    ensures r.Err? ==> forall o :: o in ops && o.id == identity ==> !Selectable(ops, lin, o)
    ensures r.Err? ==> StopsFor(ops, lin, identity, r.error)
  {
    hide StopsFor, RegisterAfter, StepLegal, IdsOf;
    InById(ops, lin);
    if identity !in byId || identity in done {
      if identity in byId { SelectableById(ops, lin, byId[identity], value); }
      UnknownStops(ops, lin, identity);
      return Err(UnknownOrRepeated);
    }
    var op := byId[identity];
    SelectableById(ops, lin, op, value);
    if !op.Completed() && op.kind != Write {
      StopsByHolding(ops, lin, op, PendingReadSelected);
      return Err(PendingReadSelected);
    }
    var preceded := PredecessorsDone(ops, op, done);
    if !preceded {
      StopsByHolding(ops, lin, op, PrecedenceViolated);
      return Err(PrecedenceViolated);
    }
    if op.kind == Read && op.result != value {
      StopsByHolding(ops, lin, op, ReadMismatch);
      return Err(ReadMismatch);
    }
    return Ok(op);
  }

  method Replay(ops: seq<Op>, order: seq<string>) returns (r: Result<Witness, HistoryError>)
    ensures r.Ok? <==> Supported(ops) && Accepted(ops, order)
    ensures r.Ok? ==> r.value.order == order && HasValues(ops, order, r.value.values)
    ensures r.Ok? ==> r.value.omitted == LeftOut(ops, SetOf(order)) && Omits(ops, order, r.value.omitted)
    ensures r.Err? ==> RefusedFor(ops, order, r.error)
  {
    var supported := ValidateHistory(ops);
    if !supported { return Err(UnsupportedHistory); }
    SupportedIsWellFormed(ops);
    if |order| > |ops| {
      TooLongRejected(ops, order);
      return Err(InvalidOrder);
    }
    var byId := IndexById(ops);
    var done: set<string>, values := {}, [""];
    ghost var lin: seq<Op> := [];
    assert Names(lin, order[..0]) && AreValues(lin, values);
    assert IdsOf(lin) == {} && SetOf(order[..0]) == {};
    hide StepLegal, AreValues, IdsOf, RegisterAfter, SetOf, Selectable, Omits, StopsFor;
    for k := 0 to |order|
      invariant |values| == |lin| + 1 && Names(lin, order[..k]) && StepLegal(ops, lin)
      invariant done == IdsOf(lin) == SetOf(order[..k]) && AreValues(lin, values)
    {
      SetOfNext(order, k);
      LastValue(lin, values);
      var next := NextOp(ops, byId, done, values[|values| - 1], order[k], lin);
      if next.Err? {
        StuckMeansRejected(ops, order, lin);
        assert StopsInside(ops, order, lin, next.error);
        return Err(next.error);
      }
      var op := next.value;
      StepExtends(ops, lin, op, values);
      NamesNext(lin, op, order, k);
      values := values + [if op.kind == Write then op.value else values[|values| - 1]];
      done := done + {order[k]};
      lin := lin + [op];
    }
    assert order[..|order|] == order;
    InById(ops, lin);
    var complete := CompletedDone(ops, done);
    if !complete {
      OnlyOneReading(ops, order, lin);
      return Err(CompletedOmitted);
    }
    var omitted := Omitted(ops, done);
    LeftOutOmits(ops, order);
    return Ok(Witness(order, values, omitted));
  }

  lemma NamesNext(lin: seq<Op>, op: Op, order: seq<string>, k: nat)
    requires k < |order| && Names(lin, order[..k]) && op.id == order[k]
    ensures Names(lin + [op], order[..k + 1])
  {
  }

  lemma LastValue(lin: seq<Op>, values: seq<string>)
    requires AreValues(lin, values)
    ensures values[|values| - 1] == RegisterAfter(lin)
  {
    assert lin[..|lin|] == lin;
  }

  /** `values` are the register values along the accepted reading of `order`. */
  ghost predicate HasValues(ops: seq<Op>, order: seq<string>, values: seq<string>) {
    exists lin :: Names(lin, order) && StepLegal(ops, lin) && Complete(ops, lin) && AreValues(lin, values)
  }

  lemma HavingValuesAccepts(ops: seq<Op>, order: seq<string>, values: seq<string>)
    ensures HasValues(ops, order, values) ==> Accepted(ops, order)
  {
    hide StepLegal, Complete, AreValues, Names;
  }

  lemma TooLongRejected(ops: seq<Op>, order: seq<string>)
    requires |order| > |ops|
    ensures !Accepted(ops, order)
  {
    forall lin | StepLegal(ops, lin) ensures |lin| <= |ops| { StepLegalLength(ops, lin); }
  }

  lemma OnlyOneReading(ops: seq<Op>, order: seq<string>, lin: seq<Op>)
    requires WellFormed(ops) && Names(lin, order) && StepLegal(ops, lin) && !Complete(ops, lin)
    ensures !Accepted(ops, order)
  {
    forall full | Names(full, order) && StepLegal(ops, full) ensures full == lin {
      NamesUnique(ops, full, lin, order);
    }
  }

  /** Replay is sound and complete: a history is linearizable exactly when it accepts some order. */
  lemma ReplayDecides(ops: seq<Op>)
    requires Supported(ops)
    ensures Linearizable(ops) <==> exists order :: Accepted(ops, order)
  {
    SupportedIsWellFormed(ops);
    LinearizableIffReplayable(ops);
    if Linearizable(ops) {
      var lin: seq<Op> :| StepLegal(ops, lin) && Complete(ops, lin);
      var order := seq(|lin|, i requires 0 <= i < |lin| => lin[i].id);
      assert Names(lin, order);
      assert Accepted(ops, order);
    }
  }

  // ----- Witness verification ------------------------------------------------------------------

  /** One state of an exported trace: its number, the selected indices in listing order, the register. */
  datatype TraceState = TraceState(number: int, done: seq<int>, value: string)

  datatype TraceEdge = TraceEdge(source: TraceState, name: string, parameters: seq<string>, i: int, target: TraceState)

  ghost predicate StateShape(ops: seq<Op>, s: TraceState, number: int) {
    s.number == number && |s.done| <= |ops| && Distinct(s.done) && forall i :: i in s.done ==> 1 <= i <= |ops|
  }

  /** Each transition selects one new operation, and its edge says so. */
  ghost predicate IsTrace(ops: seq<Op>, states: seq<TraceState>, actions: seq<TraceEdge>, picks: seq<int>) {
    && |states| == |picks| + 1 && |actions| == |picks|
    && (forall p :: 0 <= p < |states| ==> StateShape(ops, states[p], p + 1))
    && states[0].done == [] && states[0].value == ""
    && forall p :: 0 <= p < |picks| ==> IsTransition(states[p], states[p + 1], actions[p], picks[p])
  }

  ghost predicate IsTransition(s: TraceState, t: TraceState, e: TraceEdge, pick: int) {
    && pick !in s.done && SetOf(t.done) == SetOf(s.done) + {pick}
    && e == TraceEdge(s, "Linearize", ["i"], pick, t)
  }

  ghost predicate InRange(ops: seq<Op>, picks: seq<int>) {
    forall p :: 0 <= p < |picks| ==> 1 <= picks[p] <= |ops|
  }

  ghost function Chosen(ops: seq<Op>, picks: seq<int>): (lin: seq<Op>)
    requires InRange(ops, picks)
    ensures |lin| == |picks|
  {
    seq(|picks|, p requires 0 <= p < |picks| => ops[picks[p] - 1])
  }

  /** A trace that certifies a linearization. */
  ghost predicate IsWitness(ops: seq<Op>, states: seq<TraceState>, actions: seq<TraceEdge>, picks: seq<int>) {
    && 2 <= |states| && IsTrace(ops, states, actions, picks) && InRange(ops, picks)
    && StepLegal(ops, Chosen(ops, picks)) && Complete(ops, Chosen(ops, picks))
    && AreValues(Chosen(ops, picks), ValuesOf(states))
  }

  method CheckState(ops: seq<Op>, s: TraceState, number: int) returns (ok: bool, done: set<int>)
    ensures ok == StateShape(ops, s, number)
    ensures ok ==> done == SetOf(s.done)
  {
    done := {};
    if s.number != number || |s.done| > |ops| { return false, done; }
    for k := 0 to |s.done|
      invariant forall i :: 0 <= i < k ==> 1 <= s.done[i] <= |ops|
    {
      assert s.done[k] in s.done;
      if !(1 <= s.done[k] <= |ops|) { return false, done; }
    }
    done := SetOf(s.done);
    ok := |done| == |s.done|;
    if ok { SameCardinalityDistinct(s.done); } else { NotDistinct(s.done); }
  }

  lemma NotDistinct<T>(s: seq<T>)
    ensures Distinct(s) ==> |SetOf(s)| == |s|
  {
    if Distinct(s) { DistinctCardinality(s); }
  }

  /** One transition: which operation it selected, if it is one the trace may contain. */
  method CheckTransition(s: TraceState, t: TraceState, e: TraceEdge) returns (ok: bool, pick: int)
    ensures ok ==> IsTransition(s, t, e, pick)
    ensures !ok ==> forall any :: !IsTransition(s, t, e, any)
  {
    var previous, done := SetOf(s.done), SetOf(t.done);
    pick := 0;
    if !(previous < done) || |done| != |previous| + 1 {
      forall any ensures !IsTransition(s, t, e, any) {
        assert any !in s.done ==> any !in previous;
        assert any !in previous ==> |previous + {any}| == |previous| + 1 && any in previous + {any};
      }
      return false, pick;
    }
    var added := done - previous;
    assert |added| == 1 by { assert done == previous + added; }
    pick := FirstOf(t.done, added);
    ok := e.source == s && e.target == t && e.name == "Linearize" && e.parameters == ["i"] && e.i == pick;
    forall any | IsTransition(s, t, e, any) ensures any == pick && ok {
      assert pick in previous + {any} && pick !in previous;
    }
    assert ok ==> e == TraceEdge(s, "Linearize", ["i"], pick, t);
    assert SetOf(t.done) == SetOf(s.done) + {pick};
  }

  /** The only element of `added`, found by walking the list it came from. */
  method FirstOf(list: seq<int>, added: set<int>) returns (x: int)
    requires |added| == 1 && added <= SetOf(list)
    ensures added == {x}
  {
    x := 0;
    for k := 0 to |list|
      invariant x in added || forall i :: 0 <= i < k ==> list[i] !in added
    {
      if list[k] in added { x := list[k]; }
    }
    assert (forall i :: 0 <= i < |list| ==> list[i] !in added) ==> added == {} by {
      assert forall y :: y in SetOf(list) ==> y in list;
    }
    assert x in added;
    assert |added - {x}| == 0;
  }

  lemma PicksUnique(ops: seq<Op>, states: seq<TraceState>, actions: seq<TraceEdge>, a: seq<int>, b: seq<int>)
    requires IsTrace(ops, states, actions, a) && IsTrace(ops, states, actions, b)
    ensures a == b
  {
    forall p | 0 <= p < |a| ensures a[p] == b[p] {
      assert IsTransition(states[p], states[p + 1], actions[p], a[p]);
      assert IsTransition(states[p], states[p + 1], actions[p], b[p]);
    }
  }

  /** Reads a trace: the order it selects and the register values it shows. */
  method ReadTrace(ops: seq<Op>, states: seq<TraceState>, actions: seq<TraceEdge>)
    returns (ok: bool, order: seq<string>, values: seq<string>, ghost picks: seq<int>)
    requires |actions| == |states| - 1
    ensures ok ==> IsTrace(ops, states, actions, picks) && InRange(ops, picks)
    ensures ok ==> Names(Chosen(ops, picks), order) && values == ValuesOf(states)
    ensures !ok ==> forall any :: !IsTrace(ops, states, actions, any)
  {
    hide StateShape, IsTransition;
    order, values, picks := [], [], [];
    for p := 0 to |states|
      invariant |picks| == |order| == if p == 0 then 0 else p - 1
      invariant values == ValuesOf(states[..p])
      invariant forall i :: 0 <= i < p ==> StateShape(ops, states[i], i + 1)
      invariant p > 0 ==> states[0].done == [] && states[0].value == ""
      invariant forall i :: 0 <= i < |picks| ==> IsTransition(states[i], states[i + 1], actions[i], picks[i])
      invariant InRange(ops, picks) && Names(Chosen(ops, picks), order)
    {
      var shaped, _ := CheckState(ops, states[p], p + 1);
      if !shaped { return false, order, values, picks; }
      values := values + [states[p].value];
      assert states[..p + 1][..p] == states[..p];
      if p == 0 {
        if states[0].done != [] || states[0].value != "" { return false, order, values, picks; }
      } else {
        var moved, pick := CheckTransition(states[p - 1], states[p], actions[p - 1]);
        if !moved {
          NoTransitionNoTrace(ops, states, actions, p - 1, states[p - 1], states[p], actions[p - 1]);
          return false, order, values, picks;
        }
        PickInRange(ops, states[p - 1], states[p], actions[p - 1], pick, p + 1);
        assert Chosen(ops, picks + [pick]) == Chosen(ops, picks) + [ops[pick - 1]];
        order := order + [ops[pick - 1].id];
        picks := picks + [pick];
      }
    }
    assert states[..|states|] == states;
    ok := true;
  }

  lemma PickInRange(ops: seq<Op>, s: TraceState, t: TraceState, e: TraceEdge, pick: int, number: int)
    requires IsTransition(s, t, e, pick) && StateShape(ops, t, number)
    ensures 1 <= pick <= |ops|
  {
    assert pick in SetOf(t.done);
  }

  lemma NoTransitionNoTrace(ops: seq<Op>, states: seq<TraceState>, actions: seq<TraceEdge>, p: nat,
    s: TraceState, t: TraceState, e: TraceEdge)
    requires |actions| == |states| - 1 && p < |actions|
    requires s == states[p] && t == states[p + 1] && e == actions[p]
    requires forall any :: !IsTransition(s, t, e, any)
    ensures forall any :: !IsTrace(ops, states, actions, any)
  {
    forall any: seq<int> | |any| == |actions| ensures !IsTrace(ops, states, actions, any) {
      assert !IsTransition(s, t, e, any[p]);
    }
  }

  function ValuesOf(states: seq<TraceState>): (r: seq<string>)
    ensures |r| == |states|
  {
    seq(|states|, p requires 0 <= p < |states| => states[p].value)
  }

  /** The order read off a trace, and why it is refused: replay refuses it, or gives other values. */
  ghost predicate ReadAndRefused(ops: seq<Op>, states: seq<TraceState>, actions: seq<TraceEdge>, picks: seq<int>,
    order: seq<string>, e: HistoryError)
  {
    && IsTrace(ops, states, actions, picks) && InRange(ops, picks) && Names(Chosen(ops, picks), order)
    && if Accepted(ops, order) then e == ValuesDisagree && !HasValues(ops, order, ValuesOf(states))
       else RefusedFor(ops, order, e)
  }

  /** What a witness is refused for. */
  ghost predicate TraceRefusedFor(ops: seq<Op>, states: seq<TraceState>, actions: seq<TraceEdge>, e: HistoryError) {
    if !Supported(ops) then e == UnsupportedHistory
    else if !(2 <= |states| <= |ops| + 1) || forall picks :: !IsTrace(ops, states, actions, picks) then
      e == InvalidTrace
    else exists picks, order :: ReadAndRefused(ops, states, actions, picks, order, e)
  }

  method VerifyWitness(ops: seq<Op>, states: seq<TraceState>, actions: seq<TraceEdge>)
    returns (r: Result<Witness, HistoryError>)
    ensures r.Ok? <==> Supported(ops) && exists picks :: IsWitness(ops, states, actions, picks)
    ensures r.Ok? ==> exists picks :: IsWitness(ops, states, actions, picks) && Names(Chosen(ops, picks), r.value.order)
    ensures r.Ok? ==> r.value.values == ValuesOf(states) && HasValues(ops, r.value.order, r.value.values)
    ensures r.Ok? ==> r.value.omitted == LeftOut(ops, SetOf(r.value.order))
    ensures r.Ok? ==> Omits(ops, r.value.order, r.value.omitted)
    ensures r.Err? ==> TraceRefusedFor(ops, states, actions, r.error)
  {
    hide RefusedFor, HasValues, Omits, Accepted, IsTrace, InRange, Names, Chosen, LeftOut, WellFormed, IsWitness;
    var supported := ValidateHistory(ops);
    if !supported { return Err(UnsupportedHistory); }
    SupportedIsWellFormed(ops);
    WitnessLength(ops, states, actions);
    TraceLengths(ops, states, actions);
    if !(2 <= |states| <= |ops| + 1) { return Err(InvalidTrace); }
    if |actions| != |states| - 1 { return Err(InvalidTrace); }
    var ok, order, values, picks := ReadTrace(ops, states, actions);
    if !ok { return Err(InvalidTrace); }
    var replayed := Replay(ops, order);
    TraceCertifies(ops, states, actions, picks, order);
    HavingValuesAccepts(ops, order, ValuesOf(states));
    if replayed.Err? {
      assert ReadAndRefused(ops, states, actions, picks, order, replayed.error);
      return Err(replayed.error);
    }
    ValuesUnique(ops, order, replayed.value.values);
    if values != replayed.value.values {
      assert ReadAndRefused(ops, states, actions, picks, order, ValuesDisagree);
      return Err(ValuesDisagree);
    }
    OwnPicks(ops, states, actions, picks);
    return replayed;
  }

  /** A trace's picks are its own, so any reading of it as a witness is by these. */
  lemma OwnPicks(ops: seq<Op>, states: seq<TraceState>, actions: seq<TraceEdge>, picks: seq<int>)
    requires 2 <= |states| && IsTrace(ops, states, actions, picks)
    requires exists any :: IsWitness(ops, states, actions, any)
    ensures IsWitness(ops, states, actions, picks)
  {
    var any :| IsWitness(ops, states, actions, any);
    PicksUnique(ops, states, actions, any, picks);
  }

  /** A well-shaped trace is a witness exactly when replay accepts its order with the values it shows. */
  lemma TraceCertifies(ops: seq<Op>, states: seq<TraceState>, actions: seq<TraceEdge>, picks: seq<int>,
    order: seq<string>)
    requires WellFormed(ops) && 2 <= |states| && IsTrace(ops, states, actions, picks) && InRange(ops, picks)
    requires Names(Chosen(ops, picks), order)
    ensures (exists any :: IsWitness(ops, states, actions, any)) <==> HasValues(ops, order, ValuesOf(states))
  {
    hide StepLegal, Complete, AreValues, Names, IsTrace;
    var lin := Chosen(ops, picks);
    if any :| IsWitness(ops, states, actions, any) {
      PicksUnique(ops, states, actions, any, picks);
      assert HasValues(ops, order, ValuesOf(states));
    }
    if other :| Names(other, order) && StepLegal(ops, other) && Complete(ops, other)
                && AreValues(other, ValuesOf(states)) {
      KnownNames(ops, other, lin, order);
      assert IsWitness(ops, states, actions, picks);
    }
  }

  lemma KnownNames(ops: seq<Op>, other: seq<Op>, lin: seq<Op>, order: seq<string>)
    requires WellFormed(ops) && StepLegal(ops, other) && Names(other, order) && Names(lin, order)
    requires forall i :: 0 <= i < |lin| ==> lin[i] in ops
    ensures other == lin
  {
    StepLegalKnown(ops, other);
    forall i | 0 <= i < |lin| ensures other[i] == lin[i] {
      SameId(ops, other[i], lin[i]);
    }
  }

  lemma ValuesUnique(ops: seq<Op>, order: seq<string>, values: seq<string>)
    requires WellFormed(ops) && HasValues(ops, order, values)
    ensures forall vs :: HasValues(ops, order, vs) <==> vs == values
  {
    hide StepLegal, Complete, Names;
    var lin :| Names(lin, order) && StepLegal(ops, lin) && Complete(ops, lin) && AreValues(lin, values);
    forall vs | HasValues(ops, order, vs) ensures vs == values {
      var other :| Names(other, order) && StepLegal(ops, other) && Complete(ops, other) && AreValues(other, vs);
      NamesUnique(ops, lin, other, order);
    }
  }

  lemma WitnessLength(ops: seq<Op>, states: seq<TraceState>, actions: seq<TraceEdge>)
    ensures forall picks :: IsWitness(ops, states, actions, picks) ==>
      2 <= |states| <= |ops| + 1 && |actions| == |states| - 1
  {
    forall picks | IsWitness(ops, states, actions, picks) ensures |states| <= |ops| + 1 {
      StepLegalLength(ops, Chosen(ops, picks));
    }
  }

  lemma TraceLengths(ops: seq<Op>, states: seq<TraceState>, actions: seq<TraceEdge>)
    ensures forall picks :: IsTrace(ops, states, actions, picks) ==> |actions| == |states| - 1
    ensures forall picks :: IsWitness(ops, states, actions, picks) ==> IsTrace(ops, states, actions, picks)
  {
    hide StateShape, IsTransition;
  }

  /** An accepted trace really certifies linearizability. */
  lemma WitnessSound(ops: seq<Op>, states: seq<TraceState>, actions: seq<TraceEdge>, picks: seq<int>)
    requires IsWitness(ops, states, actions, picks)
    ensures Linearization(ops, Chosen(ops, picks))
  {
    StepLegalSound(ops, Chosen(ops, picks));
  }

  /** And every linearizable history has a trace the verifier accepts. */
  lemma WitnessExists(ops: seq<Op>)
    returns (states: seq<TraceState>, actions: seq<TraceEdge>, picks: seq<int>)
    requires Supported(ops) && Linearizable(ops)
    ensures IsWitness(ops, states, actions, picks)
  {
    SupportedIsWellFormed(ops);
    LinearizableIffReplayable(ops);
    var lin: seq<Op> :| StepLegal(ops, lin) && Complete(ops, lin);
    StepLegalLength(ops, lin);
    StepLegalKnown(ops, lin);
    picks := PicksFor(ops, lin);
    CanonicalWitness(ops, lin, picks);
    states, actions := StatesFor(lin, picks), ActionsFor(StatesFor(lin, picks), picks);
  }

  lemma CanonicalWitness(ops: seq<Op>, lin: seq<Op>, picks: seq<int>)
    requires Supported(ops) && StepLegal(ops, lin) && Complete(ops, lin) && |lin| <= |ops|
    requires InRange(ops, picks) && Distinct(picks) && |picks| == |lin|
    requires forall p :: 0 <= p < |lin| ==> ops[picks[p] - 1] == lin[p]
    ensures IsWitness(ops, StatesFor(lin, picks), ActionsFor(StatesFor(lin, picks), picks), picks)
  {
    var first :| 0 <= first < |ops| && ops[first].Completed();
    assert ops[first] in lin;
    assert Chosen(ops, picks) == lin;
    CanonicalTrace(ops, lin, picks);
  }

  /** The trace that lists its selections in order. */
  function StatesFor(lin: seq<Op>, picks: seq<int>): (states: seq<TraceState>)
    requires |picks| == |lin|
    ensures |states| == |lin| + 1
  {
    seq(|lin| + 1, p requires 0 <= p <= |lin| => TraceState(p + 1, picks[..p], RegisterAfter(lin[..p])))
  }

  function ActionsFor(states: seq<TraceState>, picks: seq<int>): (actions: seq<TraceEdge>)
    requires |states| == |picks| + 1
    ensures |actions| == |picks|
  {
    seq(|picks|, p requires 0 <= p < |picks| => TraceEdge(states[p], "Linearize", ["i"], picks[p], states[p + 1]))
  }

  lemma CanonicalTrace(ops: seq<Op>, lin: seq<Op>, picks: seq<int>)
    requires |picks| == |lin| && InRange(ops, picks) && Distinct(picks) && |lin| <= |ops|
    ensures IsTrace(ops, StatesFor(lin, picks), ActionsFor(StatesFor(lin, picks), picks), picks)
    ensures AreValues(lin, ValuesOf(StatesFor(lin, picks)))
  {
    var states := StatesFor(lin, picks);
    var actions := ActionsFor(states, picks);
    forall p | 0 <= p < |picks| ensures IsTransition(states[p], states[p + 1], actions[p], picks[p]) {
      SetOfNext(picks, p);
    }
    forall p | 0 <= p < |states| ensures StateShape(ops, states[p], p + 1) {
      assert forall i :: i in picks[..p] ==> exists q :: 0 <= q < p && picks[q] == i;
    }
  }

  lemma {:induction false} PicksFor(ops: seq<Op>, lin: seq<Op>) returns (picks: seq<int>)
    requires Distinct(lin) && forall o :: o in lin ==> o in ops
    ensures |picks| == |lin| && InRange(ops, picks) && Distinct(picks)
    ensures forall p :: 0 <= p < |lin| ==> ops[picks[p] - 1] == lin[p]
  {
    if lin == [] {
      picks := [];
    } else {
      var n := |lin| - 1;
      assert forall o :: o in lin[..n] ==> o in lin;
      var front := PicksFor(ops, lin[..n]);
      assert lin[n] in lin;
      var i :| 0 <= i < |ops| && ops[i] == lin[n];
      picks := front + [i + 1];
    }
  }
}

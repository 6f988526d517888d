/** How recorded events become a register history: each operation with the interval in which it was under way. */
module HistoryExtract {
  import opened Common
  import opened Linearizability

  datatype EventKind = ReadRequest | Propose | Apply | CompleteReads | OtherEvent

  datatype CompletedRead = CompletedRead(context: string, value: string)

  datatype TrackedWrite = TrackedWrite(context: string, completed: int)

  /** What a node reports after an event: the reads it completed and the writes it tracks. */
  datatype NodeReport = NodeReport(completed: seq<CompletedRead>, writes: seq<TrackedWrite>)

  datatype Event = Event(
    kind: EventKind, number: int, node: int, proposalContext: string, value: string, reports: seq<NodeReport>)

  /** Operations are told apart by their kind and identity. */
  datatype Key = Key(kind: Kind, identity: string)

  datatype Shown = Shown(key: Key, value: string)

  datatype Books = Books(order: seq<Key>, ops: map<Key, Op>, owners: map<Key, int>)

  const EMPTY: Books := Books([], map[], map[])

  // ----- One event -----------------------------------------------------------------------------

  predicate Invokes(e: Event) { e.kind.ReadRequest? || e.kind.Propose? }

  function InvokedKey(e: Event): Key {
    if e.kind.Propose? then Key(Write, e.proposalContext) else Key(Read, e.value)
  }

  function NewOp(payload: string -> string, e: Event): Op {
    var key := InvokedKey(e);
    Op((if key.kind.Read? then "read:" else "write:") + payload(key.identity), key.kind,
       if key.kind.Write? then payload(e.value) else "", "", e.number, -1)
  }

  function Invoked(payload: string -> string, s: Books, e: Event): Option<Books> {
    if !Invokes(e) then Some(s)
    else if InvokedKey(e) in s.ops then None
    else
      var key := InvokedKey(e);
      Some(Books(s.order + [key], s.ops[key := NewOp(payload, e)], s.owners[key := e.node]))
  }

  function ShownReads(rs: seq<CompletedRead>): (r: seq<Shown>) {
    seq(|rs|, i requires 0 <= i < |rs| => Shown(Key(Read, rs[i].context), rs[i].value))
  }

  function ShownWrites(ws: seq<TrackedWrite>): seq<Shown> {
    if ws == [] then []
    else if ws[|ws| - 1].completed == 0 then ShownWrites(ws[..|ws| - 1])
    else ShownWrites(ws[..|ws| - 1]) + [Shown(Key(Write, ws[|ws| - 1].context), "")]
  }

  /** The completions a report shows: reads with their value, and writes marked completed. */
  function Shows(r: NodeReport): seq<Shown> { ShownReads(r.completed) + ShownWrites(r.writes) }

  predicate FlagsOk(ws: seq<TrackedWrite>) { forall i :: 0 <= i < |ws| ==> ws[i].completed in {0, 1} }

  function Lookup(list: seq<Shown>, key: Key): (r: Option<string>)
    ensures r.Some? ==> exists i :: 0 <= i < |list| && list[i] == Shown(key, r.value)
    ensures r.None? ==> forall i :: 0 <= i < |list| ==> list[i].key != key
  {
    if list == [] then None
    else if list[|list| - 1].key == key then Some(list[|list| - 1].value)
    else Lookup(list[..|list| - 1], key)
  }

  /** What the node with this number shows of `key` after `e`. */
  function ShownBy(e: Event, node: int, key: Key): Option<string> {
    if 1 <= node <= |e.reports| then Lookup(Shows(e.reports[node - 1]), key) else None
  }

  ghost predicate KeysDistinct(list: seq<Shown>) {
    forall i, j :: 0 <= i < j < |list| ==> list[i].key != list[j].key
  }

  /** A completion must belong to the node; a first one needs the right event, a repeated one the same result. */
  predicate ItemOk(payload: string -> string, s: Books, e: Event, n: nat, item: Shown) {
    && item.key in s.ops && item.key in s.owners && s.owners[item.key] == n + 1
    && if s.ops[item.key].returned == -1 then e.kind == (if item.key.kind.Write? then Apply else CompleteReads)
       else s.ops[item.key].result == payload(item.value)
  }

  /** Every completed operation of the node is still shown. */
  ghost predicate NoneGone(s: Books, n: nat, list: seq<Shown>) {
    forall k :: k in s.ops && k in s.owners && s.owners[k] == n + 1 && s.ops[k].returned >= 0 ==> Lookup(list, k).Some?
  }

  ghost predicate NodeOk(payload: string -> string, s: Books, e: Event, n: nat)
    requires n < |e.reports|
  {
    var list := Shows(e.reports[n]);
    && FlagsOk(e.reports[n].writes) && KeysDistinct(list)
    && (forall i :: 0 <= i < |list| ==> ItemOk(payload, s, e, n, list[i]))
    && NoneGone(s, n, list)
  }

  function Ended(payload: string -> string, e: Event, op: Op, shown: Option<string>): Op {
    if shown.Some? && op.returned == -1 then op.(returned := e.number, result := payload(shown.value)) else op
  }

  function WithCompletions(payload: string -> string, s: Books, e: Event): Books {
    s.(ops := map k | k in s.ops ::
      Ended(payload, e, s.ops[k], if k in s.owners then ShownBy(e, s.owners[k], k) else None))
  }

  ghost function After(payload: string -> string, s: Books, e: Event): Option<Books> {
    match Invoked(payload, s, e)
    case None => None
    case Some(t) =>
      if forall n :: 0 <= n < |e.reports| ==> NodeOk(payload, t, e, n) then Some(WithCompletions(payload, t, e))
      else None
  }

  /** The books after the first `i` events, unless one of them was refused. */
  ghost function AfterAll(payload: string -> string, events: seq<Event>, i: nat): Option<Books>
    requires i <= |events|
  {
    if i == 0 then Some(EMPTY)
    else match AfterAll(payload, events, i - 1)
      case None => None
      case Some(s) => After(payload, s, events[i - 1])
  }

  // ----- As it runs ----------------------------------------------------------------------------

  ghost predicate Paired(s: Books) {
    s.ops.Keys == s.owners.Keys && SetOf(s.order) == s.ops.Keys && Distinct(s.order)
  }

  lemma InvokedPaired(payload: string -> string, s: Books, e: Event)
    requires Paired(s)
    ensures Invoked(payload, s, e).Some? ==> Paired(Invoked(payload, s, e).value)
  {
    if Invokes(e) && InvokedKey(e) !in s.ops {
      assert InvokedKey(e) !in s.order by { assert InvokedKey(e) !in SetOf(s.order); }
      DistinctAppend(s.order, InvokedKey(e));
    }
  }

  /** The operations when the nodes before `n` and the first `i` items of node `n` have been gone through. */
  ghost function Partly(payload: string -> string, t: Books, e: Event, n: nat, i: nat): map<Key, Op>
    requires Paired(t) && n <= |e.reports| && (n < |e.reports| ==> i <= |Shows(e.reports[n])|)
  {
    map k | k in t.ops :: Ended(payload, e, t.ops[k], SoFar(e, t.owners[k], n, i, k))
  }

  ghost function SoFar(e: Event, owner: int, n: nat, i: nat, key: Key): Option<string>
    requires n <= |e.reports| && (n < |e.reports| ==> i <= |Shows(e.reports[n])|)
  {
    if 1 <= owner <= n then ShownBy(e, owner, key)
    else if owner == n + 1 && n < |e.reports| then Lookup(Shows(e.reports[n])[..i], key)
    else None
  }

  method CollectReturns(r: NodeReport) returns (list: Option<seq<Shown>>)
    ensures list == if FlagsOk(r.writes) then Some(Shows(r)) else None
  {
    var finished := ShownReads(r.completed);
    var writes: seq<Shown> := [];
    for i := 0 to |r.writes|
      invariant FlagsOk(r.writes[..i]) && writes == ShownWrites(r.writes[..i])
    {
      assert r.writes[..i + 1][..i] == r.writes[..i];
      if r.writes[i].completed != 0 && r.writes[i].completed != 1 { return None; }
      if r.writes[i].completed != 0 { writes := writes + [Shown(Key(Write, r.writes[i].context), "")]; }
    }
    assert r.writes[..|r.writes|] == r.writes;
    return Some(finished + writes);
  }

  lemma ItemNext(payload: string -> string, t: Books, e: Event, n: nat, i: nat)
    requires Paired(t) && n < |e.reports| && i < |Shows(e.reports[n])|
    requires var item := Shows(e.reports[n])[i];
      item.key in t.ops && t.owners[item.key] == n + 1 && Lookup(Shows(e.reports[n])[..i], item.key).None?
    ensures var item := Shows(e.reports[n])[i];
      && Partly(payload, t, e, n, i)[item.key] == t.ops[item.key]
      && Partly(payload, t, e, n, i + 1)
         == Partly(payload, t, e, n, i)[item.key := Ended(payload, e, t.ops[item.key], Some(item.value))]
  {
    hide Shows, Ended;
    var list := Shows(e.reports[n]);
    assert list[..i + 1][..i] == list[..i];
    var a, b := Partly(payload, t, e, n, i), Partly(payload, t, e, n, i + 1);
    assert Ended(payload, e, t.ops[list[i].key], None) == t.ops[list[i].key] by {
      NothingShown(payload, e, t.ops[list[i].key]);
    }
    forall k | k in t.ops && k != list[i].key ensures a[k] == b[k] {
      assert Lookup(list[..i + 1], k) == Lookup(list[..i], k);
    }
  }

  lemma NothingShown(payload: string -> string, e: Event, op: Op)
    ensures Ended(payload, e, op, None) == op
  {
  }

  lemma NodeDone(payload: string -> string, t: Books, e: Event, n: nat)
    requires Paired(t) && n < |e.reports|
    ensures Partly(payload, t, e, n, |Shows(e.reports[n])|) == Partly(payload, t, e, n + 1, 0)
  {
    hide Shows, Ended;
    var list := Shows(e.reports[n]);
    assert list[..|list|] == list;
    forall k | k in t.ops ensures SoFar(e, t.owners[k], n, |list|, k) == SoFar(e, t.owners[k], n + 1, 0, k) {
      if n + 1 < |e.reports| { assert Shows(e.reports[n + 1])[..0] == []; }
    }
  }

  /** One completion: not shown twice, the node's own, and rightly first or repeated. */
  method StepItem(
    payload: string -> string, ghost t: Books, s: Books, e: Event, n: nat, i: nat, item: Shown, seen: set<Key>)
    returns (r: Option<Books>)
    requires Paired(t) && n < |e.reports| && i < |Shows(e.reports[n])| && item == Shows(e.reports[n])[i]
    requires s == t.(ops := Partly(payload, t, e, n, i))
    requires item.key in seen <==> Lookup(Shows(e.reports[n])[..i], item.key).Some?
    ensures r.Some? <==> item.key !in seen && ItemOk(payload, t, e, n, item)
    ensures r.Some? ==> r.value == t.(ops := Partly(payload, t, e, n, i + 1))
  {
    hide Shows, Lookup, Ended, Partly;
    assert s.ops.Keys == t.ops.Keys by { PartlyKeys(payload, t, e, n, i); }
    if item.key in seen || item.key !in s.ops || s.owners[item.key] != n + 1 { return None; }
    ItemNext(payload, t, e, n, i);
    var op := s.ops[item.key];
    var result := payload(item.value);
    if op.returned == -1 {
      if e.kind != (if item.key.kind == Write then Apply else CompleteReads) { return None; }
      EndedFirst(payload, e, op, item.value);
      return Some(s.(ops := s.ops[item.key := op.(returned := e.number, result := result)]));
    }
    if op.result != result { return None; }
    EndedAgain(payload, e, op, item.value);
    assert s.ops[item.key := op] == s.ops;
    return Some(s);
  }

  lemma PartlyKeys(payload: string -> string, t: Books, e: Event, n: nat, i: nat)
    requires Paired(t) && n <= |e.reports| && (n < |e.reports| ==> i <= |Shows(e.reports[n])|)
    ensures Partly(payload, t, e, n, i).Keys == t.ops.Keys
  {
  }

  /** One node's completions, each checked and entered; then none of the node's may be missing. */
  method StepNode(payload: string -> string, ghost t: Books, s: Books, e: Event, n: nat) returns (r: Option<Books>)
    requires Paired(t) && n < |e.reports|
    requires s == t.(ops := Partly(payload, t, e, n, 0))
    ensures NodeOk(payload, t, e, n) ==> r == Some(t.(ops := Partly(payload, t, e, n + 1, 0)))
    ensures !NodeOk(payload, t, e, n) ==> r == None
  {
    hide Shows, Lookup, Ended, Partly, ItemOk;
    var returns_ := CollectReturns(e.reports[n]);
    if returns_.None? { return None; }
    var list := returns_.value;
    var cur := s;
    var seen: set<Key> := {};
    for i := 0 to |list|
      invariant cur == t.(ops := Partly(payload, t, e, n, i))
      invariant forall k :: k in seen <==> exists j :: 0 <= j < i && list[j].key == k
      invariant forall j, k :: 0 <= j < k < i ==> list[j].key != list[k].key
      invariant forall j :: 0 <= j < i ==> ItemOk(payload, t, e, n, list[j])
    {
      var next := StepItem(payload, t, cur, e, n, i, list[i], seen);
      if next.None? { return None; }
      cur := next.value;
      seen := seen + {list[i].key};
    }
    PartlyKeys(payload, t, e, n, |list|);
    var gone := AnyGone(cur, n, seen);
    GoneIsGone(payload, t, e, n, seen);
    if gone { return None; }
    NodeDone(payload, t, e, n);
    return Some(cur);
  }

  /** An operation completed in this very report is shown in it, so only older ones can be gone. */
  lemma GoneIsGone(payload: string -> string, t: Books, e: Event, n: nat, seen: set<Key>)
    requires Paired(t) && n < |e.reports|
    requires forall k :: k in seen <==> Lookup(Shows(e.reports[n]), k).Some?
    ensures (exists k :: k in t.ops && t.owners[k] == n + 1 && k !in seen
                && Partly(payload, t, e, n, |Shows(e.reports[n])|)[k].returned >= 0)
      <==> !NoneGone(t, n, Shows(e.reports[n]))
  {
    hide Shows, Ended;
    var list := Shows(e.reports[n]);
    assert list[..|list|] == list;
    var p := Partly(payload, t, e, n, |list|);
    forall k | k in t.ops && t.owners[k] == n + 1 && k !in seen ensures p[k] == t.ops[k] {
      NothingShown(payload, e, t.ops[k]);
    }
  }

  method AnyGone(s: Books, n: nat, seen: set<Key>) returns (gone: bool)
    requires s.ops.Keys == s.owners.Keys
    ensures gone <==> exists k :: k in s.ops && s.owners[k] == n + 1 && s.ops[k].returned >= 0 && k !in seen
  {
    var rest := s.ops.Keys;
    gone := false;
    while rest != {}
      invariant rest <= s.ops.Keys
      invariant gone <==>
        exists k :: k in s.ops && k !in rest && s.owners[k] == n + 1 && s.ops[k].returned >= 0 && k !in seen
      decreases |rest|
    {
      var k :| k in rest;
      if s.owners[k] == n + 1 && s.ops[k].returned >= 0 && k !in seen { gone := true; }
      rest := rest - {k};
    }
  }

  lemma EndedFirst(payload: string -> string, e: Event, op: Op, value: string)
    requires op.returned == -1
    ensures Ended(payload, e, op, Some(value)) == op.(returned := e.number, result := payload(value))
  {
  }

  lemma EndedAgain(payload: string -> string, e: Event, op: Op, value: string)
    requires op.returned != -1
    ensures Ended(payload, e, op, Some(value)) == op
  {
  }

  method StepEvent(payload: string -> string, s: Books, e: Event) returns (r: Option<Books>)
    requires Paired(s)
    ensures r == After(payload, s, e) && (r.Some? ==> Paired(r.value))
  {
    hide NodeOk, Paired, Partly, WithCompletions;
    InvokedPaired(payload, s, e);
    var t := s;
    if e.kind == ReadRequest || e.kind == Propose {
      var key := InvokedKey(e);
      if key in s.ops { return None; }
      t := Books(s.order + [key], s.ops[key := NewOp(payload, e)], s.owners[key := e.node]);
    }
    assert Invoked(payload, s, e) == Some(t);
    var cur := t;
    NothingYet(payload, t, e);
    for n := 0 to |e.reports|
      invariant cur == t.(ops := Partly(payload, t, e, n, 0))
      invariant forall m :: 0 <= m < n ==> NodeOk(payload, t, e, m)
    {
      var next := StepNode(payload, t, cur, e, n);
      if next.None? {
        assert !NodeOk(payload, t, e, n);
        return None;
      }
      cur := next.value;
    }
    AllDone(payload, t, e);
    return Some(cur);
  }

  lemma NothingYet(payload: string -> string, t: Books, e: Event)
    requires Paired(t)
    ensures t.ops == Partly(payload, t, e, 0, 0)
  {
    hide Shows;
    if |e.reports| > 0 { assert Shows(e.reports[0])[..0] == []; }
  }

  lemma AllDone(payload: string -> string, t: Books, e: Event)
    requires Paired(t)
    ensures t.(ops := Partly(payload, t, e, |e.reports|, 0)) == WithCompletions(payload, t, e)
    ensures Paired(WithCompletions(payload, t, e))
  {
    hide Ended, Lookup, Shows;
    var a, b := Partly(payload, t, e, |e.reports|, 0), WithCompletions(payload, t, e).ops;
    assert a.Keys == t.ops.Keys == b.Keys;
    forall k | k in t.ops ensures a[k] == b[k] {}
  }

  function InOrder(s: Books): (ops: seq<Op>)
    requires SetOf(s.order) == s.ops.Keys
    ensures |ops| == |s.order|
  {
    seq(|s.order|, i requires 0 <= i < |s.order| => assert s.order[i] in SetOf(s.order); s.ops[s.order[i]])
  }

  /** Once an event is refused, so is every longer record. */
  lemma {:induction false} Refused(payload: string -> string, events: seq<Event>, i: nat)
    requires i <= |events| && AfterAll(payload, events, i).None?
    ensures AfterAll(payload, events, |events|).None?
    decreases |events| - i
  {
    if i < |events| { Refused(payload, events, i + 1); }
  }

  // ----- What the intervals mean ---------------------------------------------------------------

  /** The first event that asks for the operation. */
  function InvokedAt(events: seq<Event>, i: nat, key: Key): (r: Option<nat>)
    requires i <= |events|
    ensures r.Some? ==> r.value < i && Invokes(events[r.value]) && InvokedKey(events[r.value]) == key
  {
    if i == 0 then None
    else if InvokedAt(events, i - 1, key).Some? then InvokedAt(events, i - 1, key)
    else if Invokes(events[i - 1]) && InvokedKey(events[i - 1]) == key then Some(i - 1)
    else None
  }

  /** The first event after which the node shows the operation completed. */
  function CompletedAt(events: seq<Event>, i: nat, node: int, key: Key): (r: Option<nat>)
    requires i <= |events|
    ensures r.Some? ==> r.value < i && ShownBy(events[r.value], node, key).Some?
  {
    if i == 0 then None
    else if CompletedAt(events, i - 1, node, key).Some? then CompletedAt(events, i - 1, node, key)
    else if ShownBy(events[i - 1], node, key).Some? then Some(i - 1)
    else None
  }

  ghost predicate Numbered(events: seq<Event>) {
    && (forall i :: 0 <= i < |events| ==> events[i].number >= 0)
    && (forall i, j :: 0 <= i < j < |events| ==> events[i].number < events[j].number)
  }

  /** The entry for `key` is what the first `i` events say of it. */
  ghost predicate EntryIs(payload: string -> string, events: seq<Event>, i: nat, s: Books, key: Key)
    requires i <= |events|
  {
    match InvokedAt(events, i, key)
    case None => key !in s.ops && key !in s.owners
    case Some(j) =>
      && key in s.ops && key in s.owners && s.owners[key] == events[j].node
      && var op, c := s.ops[key], CompletedAt(events, i, events[j].node, key);
      && op.invoked == events[j].number && op.kind == key.kind && op.id == NewOp(payload, events[j]).id
      && op.value == NewOp(payload, events[j]).value
      && (c.None? ==> op.returned == -1 && op.result == "")
      && (c.Some? ==>
            && j < c.value && op.returned == events[c.value].number
            && op.result == payload(ShownBy(events[c.value], events[j].node, key).value))
  }

  /** Nobody shows an operation that was not asked for. */
  ghost predicate UnknownUnshown(events: seq<Event>, i: nat, key: Key)
    requires i <= |events|
  {
    InvokedAt(events, i, key).None? ==> forall node :: CompletedAt(events, i, node, key).None?
  }

  /** A node shows only its own operations, and the event that shows one first asks for none. */
  lemma ShownIsOwned(payload: string -> string, t: Books, e: Event, node: int, key: Key)
    requires forall n :: 0 <= n < |e.reports| ==> NodeOk(payload, t, e, n)
    requires ShownBy(e, node, key).Some?
    ensures key in t.ops && key in t.owners && t.owners[key] == node
    ensures t.ops[key].returned == -1 ==> !Invokes(e)
    ensures t.ops[key].returned != -1 ==> t.ops[key].result == payload(ShownBy(e, node, key).value)
  {
    hide Shows;
    assert NodeOk(payload, t, e, node - 1);
    var list := Shows(e.reports[node - 1]);
    var v := Lookup(list, key).value;
    var i :| 0 <= i < |list| && list[i] == Shown(key, v);
    assert ItemOk(payload, t, e, node - 1, list[i]);
  }

  lemma {:induction false} EntryStep(payload: string -> string, events: seq<Event>, i: nat, s: Books, key: Key)
    requires i < |events| && Numbered(events) && After(payload, s, events[i]).Some?
    requires EntryIs(payload, events, i, s, key) && UnknownUnshown(events, i, key)
    ensures EntryIs(payload, events, i + 1, After(payload, s, events[i]).value, key)
    ensures UnknownUnshown(events, i + 1, key)
  {
    if InvokedAt(events, i, key).Some? {
      KnownEntryStep(payload, events, i, s, key);
    } else {
      NewEntryStep(payload, events, i, s, key);
    }
  }

  lemma {:induction false} KnownEntryStep(payload: string -> string, events: seq<Event>, i: nat, s: Books, key: Key)
    requires i < |events| && Numbered(events) && After(payload, s, events[i]).Some?
    requires EntryIs(payload, events, i, s, key) && UnknownUnshown(events, i, key)
    requires InvokedAt(events, i, key).Some?
    ensures EntryIs(payload, events, i + 1, After(payload, s, events[i]).value, key)
    ensures UnknownUnshown(events, i + 1, key)
  {
    hide NodeOk, ShownBy;
    var e := events[i];
    var t := Invoked(payload, s, e).value;
    var r := After(payload, s, e).value;
    var j := InvokedAt(events, i, key).value;
    assert t.ops[key] == s.ops[key] && t.owners[key] == events[j].node;
    assert r.ops[key] == Ended(payload, e, t.ops[key], ShownBy(e, events[j].node, key));
  }

  lemma {:induction false} NewEntryStep(payload: string -> string, events: seq<Event>, i: nat, s: Books, key: Key)
    requires i < |events| && Numbered(events) && After(payload, s, events[i]).Some?
    requires EntryIs(payload, events, i, s, key) && UnknownUnshown(events, i, key)
    requires InvokedAt(events, i, key).None?
    ensures EntryIs(payload, events, i + 1, After(payload, s, events[i]).value, key)
    ensures UnknownUnshown(events, i + 1, key)
  {
    hide NodeOk, ShownBy;
    var e := events[i];
    var t := Invoked(payload, s, e).value;
    var r := After(payload, s, e).value;
    assert key !in s.ops;
    var next := i + 1;
    forall node: int ensures CompletedAt(events, next, node, key).None? {
      if ShownBy(e, node, key).Some? { ShownIsOwned(payload, t, e, node, key); }
      assert CompletedAt(events, i, node, key).None?;
    }
    if Invokes(e) && InvokedKey(e) == key {
      assert t.ops[key] == NewOp(payload, e) && t.owners[key] == e.node;
      assert CompletedAt(events, i + 1, e.node, key).None?;
      assert r.ops[key] == Ended(payload, e, t.ops[key], ShownBy(e, e.node, key));
    }
  }

  /**
   * Every entry is what the record says: asked for at its first mention, returned when its own node first
   * shows it completed, with the result shown then.
   */
  lemma {:induction false} EntriesAreIntervals(payload: string -> string, events: seq<Event>, i: nat, key: Key)
    requires i <= |events| && Numbered(events) && AfterAll(payload, events, i).Some?
    ensures EntryIs(payload, events, i, AfterAll(payload, events, i).value, key)
    ensures UnknownUnshown(events, i, key)
  {
    hide After;
    if i > 0 {
      EntriesAreIntervals(payload, events, i - 1, key);
      EntryStep(payload, events, i - 1, AfterAll(payload, events, i - 1).value, key);
    }
  }

  /**
   * In the extracted history one operation precedes another exactly when its completion was first shown by
   * an event before the one that asked for the other.
   */
  lemma {:induction false} PrecedenceIsRealTime(payload: string -> string, events: seq<Event>, a: Key, b: Key)
    requires Numbered(events) && AfterAll(payload, events, |events|).Some?
    requires var s := AfterAll(payload, events, |events|).value; a in s.ops && b in s.ops && a in s.owners
    ensures var s := AfterAll(payload, events, |events|).value;
      var n := |events|;
      Precedes(s.ops[a], s.ops[b]) <==>
        CompletedAt(events, n, s.owners[a], a).Some? && InvokedAt(events, n, b).Some?
        && CompletedAt(events, n, s.owners[a], a).value < InvokedAt(events, n, b).value
  {
    hide AfterAll, InvokedAt, CompletedAt, NewOp;
    EntriesAreIntervals(payload, events, |events|, a);
    EntriesAreIntervals(payload, events, |events|, b);
  }

  ghost predicate Injective(payload: string -> string) {
    forall x, y :: payload(x) == payload(y) ==> x == y
  }

  /**
   * The extracted history is one the checker accepts as well formed: distinct identities, no response before
   * its request. Identities stay apart because the encoding of payloads keeps them apart.
   */
  lemma {:induction false} ExtractedIsWellFormed(payload: string -> string, events: seq<Event>)
    requires Numbered(events) && AfterAll(payload, events, |events|).Some?
    requires Injective(payload)
    requires Paired(AfterAll(payload, events, |events|).value)
    ensures WellFormed(InOrder(AfterAll(payload, events, |events|).value))
  {
    hide AfterAll, InvokedAt, CompletedAt;
    var s := AfterAll(payload, events, |events|).value;
    var ops := InOrder(s);
    forall i, j | 0 <= i < j < |ops| ensures ops[i].id != ops[j].id {
      var a, b := s.order[i], s.order[j];
      assert a in SetOf(s.order) && b in SetOf(s.order);
      EntriesAreIntervals(payload, events, |events|, a);
      EntriesAreIntervals(payload, events, |events|, b);
      var x, y := InvokedAt(events, |events|, a).value, InvokedAt(events, |events|, b).value;
      IdsApart(payload, events[x], events[y]);
    }
    forall o | o in ops ensures o.returned == -1 || o.returned >= o.invoked {
      var i :| 0 <= i < |ops| && ops[i] == o;
      assert s.order[i] in SetOf(s.order);
      EntriesAreIntervals(payload, events, |events|, s.order[i]);
    }
  }

  lemma IdsApart(payload: string -> string, x: Event, y: Event)
    requires Injective(payload)
    requires InvokedKey(x) != InvokedKey(y)
    ensures NewOp(payload, x).id != NewOp(payload, y).id
  {
    var a, b := InvokedKey(x), InvokedKey(y);
    var p, q := NewOp(payload, x).id, NewOp(payload, y).id;
    if a.kind != b.kind {
      assert p[0] != q[0];
    } else {
      var k := if a.kind.Read? then 5 else 6;
      assert p[k..] == payload(a.identity) && q[k..] == payload(b.identity);
    }
  }

  /** Once shown, a completion stays shown by its node, with the same result, after every later event. */
  lemma {:induction false} CompletionStays(payload: string -> string, events: seq<Event>, i: nat, key: Key)
    requires i < |events| && Numbered(events) && AfterAll(payload, events, i + 1).Some?
    requires var s := AfterAll(payload, events, i).value;
      key in s.ops && s.ops[key].returned >= 0 && key in s.owners && 1 <= s.owners[key] <= |events[i].reports|
    ensures var s := AfterAll(payload, events, i).value;
      && ShownBy(events[i], s.owners[key], key).Some?
      && payload(ShownBy(events[i], s.owners[key], key).value) == s.ops[key].result
  {
    hide InvokedAt, CompletedAt, Lookup, Shows;
    var s := AfterAll(payload, events, i).value;
    EntriesAreIntervals(payload, events, i, key);
    var e := events[i];
    var t := Invoked(payload, s, e).value;
    assert key in t.ops && t.ops[key] == s.ops[key] && t.owners[key] == s.owners[key];
    OwnerReports(payload, t, e, key);
    ShownIsOwned(payload, t, e, s.owners[key], key);
  }

  lemma OwnerReports(payload: string -> string, t: Books, e: Event, key: Key)
    requires forall n :: 0 <= n < |e.reports| ==> NodeOk(payload, t, e, n)
    requires key in t.ops && key in t.owners && t.ops[key].returned >= 0
    ensures 1 <= t.owners[key] <= |e.reports| ==> ShownBy(e, t.owners[key], key).Some?
  {
    if 1 <= t.owners[key] <= |e.reports| { assert NodeOk(payload, t, e, t.owners[key] - 1); }
  }

  // ----- Which records are accepted ------------------------------------------------------------

  /** The event asks for this operation. */
  predicate AsksFor(e: Event, key: Key) {
    if key.kind.Write? then e.kind.Propose? && e.proposalContext == key.identity
    else e.kind.ReadRequest? && e.value == key.identity
  }

  /** The report has this operation completed with this value. */
  predicate Says(r: NodeReport, key: Key, value: string) {
    if key.kind.Write? then value == "" && TrackedWrite(key.identity, 1) in r.writes
    else CompletedRead(key.identity, value) in r.completed
  }

  predicate ToldBy(e: Event, node: int, key: Key, value: string) {
    1 <= node <= |e.reports| && Says(e.reports[node - 1], key, value)
  }

  /** One of the events before `i` asks `node` for the operation. */
  ghost predicate Asked(events: seq<Event>, i: nat, node: int, key: Key)
    requires i <= |events|
  {
    exists j :: 0 <= j < i && AsksFor(events[j], key) && events[j].node == node
  }

  ghost predicate Told(events: seq<Event>, i: nat, node: int, key: Key)
    requires i <= |events|
  {
    exists c, v :: 0 <= c < i && ToldBy(events[c], node, key, v)
  }

  /** Whenever it told of the operation before event `i`, the node gave this result. */
  ghost predicate AlwaysAs(payload: string -> string, events: seq<Event>, i: nat, node: int, key: Key, result: string)
    requires i <= |events|
  {
    forall c, v :: 0 <= c < i && ToldBy(events[c], node, key, v) ==> payload(v) == result
  }

  /** What is told was asked of that node, is first told by the right kind of event, and never changes. */
  ghost predicate FairItem(payload: string -> string, events: seq<Event>, i: nat, node: int, key: Key, value: string)
    requires i < |events|
  {
    && Asked(events, i, node, key)
    && (Told(events, i, node, key) || events[i].kind == if key.kind.Write? then Apply else CompleteReads)
    && AlwaysAs(payload, events, i, node, key, payload(value))
  }

  /** A report has each operation once, and a tracked write is completed once or not at all. */
  ghost predicate FairReport(r: NodeReport) {
    && (forall i :: 0 <= i < |r.writes| ==> r.writes[i].completed == 0 || r.writes[i].completed == 1)
    && (forall i, j :: 0 <= i < j < |r.completed| ==> r.completed[i].context != r.completed[j].context)
    && (forall i, j :: 0 <= i < j < |r.writes| && r.writes[i].completed == 1 == r.writes[j].completed ==>
          r.writes[i].context != r.writes[j].context)
  }

  ghost predicate AsksNew(events: seq<Event>, i: nat)
    requires i < |events|
  {
    forall j, key :: 0 <= j < i && AsksFor(events[j], key) ==> !AsksFor(events[i], key)
  }

  ghost predicate FairReports(e: Event) { forall n :: 0 <= n < |e.reports| ==> FairReport(e.reports[n]) }

  ghost predicate FairItems(payload: string -> string, events: seq<Event>, i: nat)
    requires i < |events|
  {
    forall node, key, value :: ToldBy(events[i], node, key, value) ==> FairItem(payload, events, i, node, key, value)
  }

  /** Nothing a reporting node told before is missing. */
  ghost predicate NothingMissing(events: seq<Event>, i: nat)
    requires i < |events|
  {
    forall node, key :: node <= |events[i].reports| && Told(events, i, node, key) ==>
      exists v :: ToldBy(events[i], node, key, v)
  }

  ghost predicate FairEvent(payload: string -> string, events: seq<Event>, i: nat)
    requires i < |events|
  {
    && AsksNew(events, i) && FairReports(events[i]) && FairItems(payload, events, i) && NothingMissing(events, i)
  }

  lemma {:induction false} WritesSaid(ws: seq<TrackedWrite>, key: Key, value: string)
    requires FlagsOk(ws)
    ensures Shown(key, value) in ShownWrites(ws)
      <==> key.kind.Write? && value == "" && TrackedWrite(key.identity, 1) in ws
  {
    if ws != [] {
      var k := |ws| - 1;
      WritesSaid(ws[..k], key, value);
      assert ws == ws[..k] + [ws[k]];
    }
  }

  lemma SaidIsShown(r: NodeReport, key: Key, value: string)
    requires FlagsOk(r.writes)
    ensures Says(r, key, value) <==> Shown(key, value) in Shows(r)
  {
    WritesSaid(r.writes, key, value);
    var got := ShownReads(r.completed);
    if key.kind.Read? && CompletedRead(key.identity, value) in r.completed {
      var i :| 0 <= i < |r.completed| && r.completed[i] == CompletedRead(key.identity, value);
      assert got[i] == Shown(key, value);
    }
  }

  lemma {:induction false} WritesDistinct(ws: seq<TrackedWrite>)
    requires FlagsOk(ws)
    ensures KeysDistinct(ShownWrites(ws)) <==>
      forall i, j :: 0 <= i < j < |ws| && ws[i].completed == 1 == ws[j].completed ==> ws[i].context != ws[j].context
  {
    if ws != [] {
      var k := |ws| - 1;
      var front, w := ws[..k], ws[k];
      WritesDistinct(front);
      WritesSaid(front, Key(Write, w.context), "");
      LastDistinct(ShownWrites(front), Shown(Key(Write, w.context), ""));
      ValuesEmpty(front, Key(Write, w.context));
    }
  }

  lemma LastDistinct(list: seq<Shown>, last: Shown)
    ensures KeysDistinct(list + [last])
      <==> KeysDistinct(list) && forall i :: 0 <= i < |list| ==> list[i].key != last.key
  {
    var all := list + [last];
    if KeysDistinct(all) {
      forall i, j | 0 <= i < j < |list| ensures list[i].key != list[j].key {
        assert all[i].key != all[j].key;
      }
      forall i | 0 <= i < |list| ensures list[i].key != last.key {
        assert all[i].key != all[|list|].key;
      }
    }
  }

  lemma {:induction false} ValuesEmpty(ws: seq<TrackedWrite>, key: Key)
    ensures forall i :: 0 <= i < |ShownWrites(ws)| && ShownWrites(ws)[i].key == key ==>
      ShownWrites(ws)[i] == Shown(key, "")
    ensures forall i :: 0 <= i < |ShownWrites(ws)| ==> ShownWrites(ws)[i].key.kind.Write?
  {
    if ws != [] { ValuesEmpty(ws[..|ws| - 1], key); }
  }

  lemma ReportIsFair(r: NodeReport)
    ensures FairReport(r) <==> FlagsOk(r.writes) && KeysDistinct(Shows(r))
  {
    hide ShownWrites;
    if FlagsOk(r.writes) {
      WritesDistinct(r.writes);
      ValuesEmpty(r.writes, Key(Write, ""));
      var got, writes := ShownReads(r.completed), ShownWrites(r.writes);
      var all := got + writes;
      if KeysDistinct(all) {
        forall i, j | 0 <= i < j < |got| ensures r.completed[i].context != r.completed[j].context {
          assert all[i].key != all[j].key;
        }
        forall i, j | 0 <= i < j < |writes| ensures writes[i].key != writes[j].key {
          assert all[|got| + i].key != all[|got| + j].key;
        }
      }
      if KeysDistinct(writes)
        && forall i, j :: 0 <= i < j < |r.completed| ==> r.completed[i].context != r.completed[j].context
      {
        forall i, j | 0 <= i < j < |all| ensures all[i].key != all[j].key {
          if i < |got| <= j { assert all[i].key.kind.Read? && all[j] == writes[j - |got|]; }
        }
      }
    }
  }

  /** In a fair report an operation is shown with the one value it is told with. */
  lemma ToldIsShown(e: Event, node: int, key: Key, value: string)
    requires FairReports(e)
    ensures ToldBy(e, node, key, value) <==> ShownBy(e, node, key) == Some(value)
  {
    hide Shows;
    if 1 <= node <= |e.reports| {
      ReportIsFair(e.reports[node - 1]);
      SaidIsShown(e.reports[node - 1], key, value);
    }
  }

  /** The first event that tells of the operation, if any does. */
  lemma {:induction false} EverTold(events: seq<Event>, i: nat, node: int, key: Key)
    requires i <= |events| && forall k :: 0 <= k < i ==> FairReports(events[k])
    ensures Told(events, i, node, key) <==> CompletedAt(events, i, node, key).Some?
  {
    hide ShownBy, FairReports, ToldBy;
    if i > 0 {
      var k := i - 1;
      EverTold(events, k, node, key);
      forall v: string ensures ToldBy(events[k], node, key, v) <==> ShownBy(events[k], node, key) == Some(v) {
        assert FairReports(events[k]);
        ToldIsShown(events[k], node, key, v);
      }
      if Told(events, i, node, key) {
        var c, v :| 0 <= c < i && ToldBy(events[c], node, key, v);
        assert c < k ==> Told(events, k, node, key);
      }
      if Told(events, k, node, key) {
        var c, v :| 0 <= c < k && ToldBy(events[c], node, key, v);
        assert ToldBy(events[c], node, key, v);
      } else if ShownBy(events[k], node, key).Some? {
        assert ToldBy(events[k], node, key, ShownBy(events[k], node, key).value);
      }
    }
  }

  lemma {:induction false} EverAsked(events: seq<Event>, i: nat, key: Key)
    requires i <= |events|
    ensures InvokedAt(events, i, key).Some? <==> exists j :: 0 <= j < i && AsksFor(events[j], key)
    ensures InvokedAt(events, i, key).Some? ==> AsksFor(events[InvokedAt(events, i, key).value], key)
  {
    if i > 0 { EverAsked(events, i - 1, key); }
  }

  ghost predicate FairBefore(payload: string -> string, events: seq<Event>, i: nat)
    requires i <= |events|
  {
    forall k :: 0 <= k < i ==> FairEvent(payload, events, k)
  }

  /** An operation is asked for by one event only, so its owner is the node that event names. */
  lemma AskedOnce(payload: string -> string, events: seq<Event>, i: nat, key: Key, node: int)
    requires i <= |events| && FairBefore(payload, events, i)
    ensures Asked(events, i, node, key)
      <==> InvokedAt(events, i, key).Some? && events[InvokedAt(events, i, key).value].node == node
  {
    hide InvokedAt, AsksFor, FairReports, FairItems, NothingMissing;
    EverAsked(events, i, key);
    if InvokedAt(events, i, key).Some? {
      var j := InvokedAt(events, i, key).value;
      forall k | 0 <= k < i && AsksFor(events[k], key) ensures k == j {
        assert FairEvent(payload, events, k) && FairEvent(payload, events, j);
      }
    }
  }

  /** What a node tells, it was asked for. */
  lemma TellerWasAsked(payload: string -> string, events: seq<Event>, i: nat, node: int, key: Key)
    requires i <= |events| && FairBefore(payload, events, i)
    requires Told(events, i, node, key)
    ensures Asked(events, i, node, key)
  {
    hide ToldBy, AsksFor, FairReports, AsksNew, NothingMissing;
    var c, v :| 0 <= c < i && ToldBy(events[c], node, key, v);
    assert FairEvent(payload, events, c);
    assert Asked(events, c, node, key);
  }

  /** In a fair record a node's answers all agree with the first one. */
  lemma AnswersAgree(payload: string -> string, events: seq<Event>, i: nat, node: int, key: Key, result: string)
    requires i <= |events| && FairBefore(payload, events, i)
    requires CompletedAt(events, i, node, key).Some?
    ensures AlwaysAs(payload, events, i, node, key, result)
      <==> payload(ShownBy(events[CompletedAt(events, i, node, key).value], node, key).value) == result
  {
    hide CompletedAt, ShownBy, ToldBy, FairReports, NothingMissing, AsksNew;
    var first := CompletedAt(events, i, node, key).value;
    assert FairEvent(payload, events, first);
    var v := ShownBy(events[first], node, key).value;
    ToldIsShown(events[first], node, key, v);
    assert ToldBy(events[first], node, key, v);
    forall c, w | 0 <= c < i && ToldBy(events[c], node, key, w) ensures payload(w) == payload(v) {
      assert FairEvent(payload, events, c);
      ToldIsShown(events[c], node, key, w);
      FirstShown(events, i, node, key, c);
      if c > first { assert FairItem(payload, events, c, node, key, w); }
    }
  }

  lemma {:induction false} FirstShown(events: seq<Event>, i: nat, node: int, key: Key, c: nat)
    requires i <= |events| && CompletedAt(events, i, node, key).Some?
    requires c < i && ShownBy(events[c], node, key).Some?
    ensures CompletedAt(events, i, node, key).value <= c
  {
    hide ShownBy;
    if CompletedAt(events, i - 1, node, key).None? {
      NeverShown(events, i - 1, node, key, c);
    } else if c < i - 1 {
      FirstShown(events, i - 1, node, key, c);
    }
  }

  lemma {:induction false} NeverShown(events: seq<Event>, i: nat, node: int, key: Key, c: nat)
    requires i <= |events| && CompletedAt(events, i, node, key).None?
    ensures c < i ==> ShownBy(events[c], node, key).None?
  {
    hide ShownBy;
    if c < i - 1 { NeverShown(events, i - 1, node, key, c); }
  }

  /** The books after the first `i` events, and with event `i`'s request entered. */
  ghost predicate Opened(payload: string -> string, events: seq<Event>, i: nat, t: Books)
    requires i < |events|
  {
    AfterAll(payload, events, i).Some? && Invoked(payload, AfterAll(payload, events, i).value, events[i]) == Some(t)
  }

  lemma ItemIsFair(payload: string -> string, events: seq<Event>, i: nat, t: Books, n: nat, key: Key, value: string)
    requires i < |events| && Numbered(events) && FairBefore(payload, events, i) && Opened(payload, events, i, t)
    ensures ItemOk(payload, t, events[i], n, Shown(key, value)) <==> FairItem(payload, events, i, n + 1, key, value)
  {
    hide AfterAll, InvokedAt, CompletedAt, AlwaysAs, Asked, Told, FairEvent, AsksFor, ShownBy, FairBefore;
    EntriesAreIntervals(payload, events, i, key);
    AskedOnce(payload, events, i, key, n + 1);
    assert forall k :: 0 <= k < i ==> FairReports(events[k]) by { BeforeHasFairReports(payload, events, i); }
    EverTold(events, i, n + 1, key);
    if CompletedAt(events, i, n + 1, key).Some? {
      AnswersAgree(payload, events, i, n + 1, key, payload(value));
    } else {
      UntoldAgrees(payload, events, i, n + 1, key, payload(value));
    }
  }

  lemma BeforeHasFairReports(payload: string -> string, events: seq<Event>, i: nat)
    requires i <= |events| && FairBefore(payload, events, i)
    ensures forall k :: 0 <= k < i ==> FairReports(events[k])
  {
    hide FairReports, FairItems, NothingMissing, AsksNew;
    forall k | 0 <= k < i ensures FairReports(events[k]) {
      assert FairEvent(payload, events, k);
    }
  }

  lemma UntoldAgrees(payload: string -> string, events: seq<Event>, i: nat, node: int, key: Key, result: string)
    requires i <= |events| && !Told(events, i, node, key)
    ensures AlwaysAs(payload, events, i, node, key, result)
  {
    hide ToldBy;
  }

  /** None of the node's completions is gone exactly when it tells again whatever it told before. */
  ghost predicate TellsAgain(events: seq<Event>, i: nat, node: int)
    requires i < |events|
  {
    forall key :: Told(events, i, node, key) ==> exists v :: ToldBy(events[i], node, key, v)
  }

  lemma GoneIsMissing(payload: string -> string, events: seq<Event>, i: nat, t: Books, n: nat)
    requires i < |events| && Numbered(events) && FairBefore(payload, events, i) && Opened(payload, events, i, t)
    requires FairReports(events[i]) && n < |events[i].reports|
    ensures NoneGone(t, n, Shows(events[i].reports[n])) <==> TellsAgain(events, i, n + 1)
  {
    hide AfterAll, InvokedAt, CompletedAt, Asked, Told, FairEvent, AsksFor, FairBefore, Shows, ToldBy;
    var e := events[i];
    var list, node := Shows(e.reports[n]), n + 1;
    BeforeHasFairReports(payload, events, i);
    forall key: Key
      ensures Told(events, i, node, key)
        <==> key in t.ops && key in t.owners && t.owners[key] == node && t.ops[key].returned >= 0
    {
      EntriesAreIntervals(payload, events, i, key);
      AskedOnce(payload, events, i, key, node);
      EverTold(events, i, node, key);
      if Told(events, i, node, key) { TellerWasAsked(payload, events, i, node, key); }
    }
    forall key: Key ensures Lookup(list, key).Some? <==> exists v :: ToldBy(e, node, key, v) {
      forall v: string ensures ToldBy(e, node, key, v) <==> Lookup(list, key) == Some(v) {
        ToldIsShown(e, node, key, v);
      }
      if Lookup(list, key).Some? { assert ToldBy(e, node, key, Lookup(list, key).value); }
    }
  }

  ghost predicate FairNode(payload: string -> string, events: seq<Event>, i: nat, node: int)
    requires i < |events| && 1 <= node <= |events[i].reports|
  {
    && FairReport(events[i].reports[node - 1])
    && (forall key, value :: ToldBy(events[i], node, key, value) ==> FairItem(payload, events, i, node, key, value))
    && TellsAgain(events, i, node)
  }

  lemma NodeIsFair(payload: string -> string, events: seq<Event>, i: nat, t: Books, n: nat)
    requires i < |events| && Numbered(events) && FairBefore(payload, events, i) && Opened(payload, events, i, t)
    requires FairReports(events[i]) && n < |events[i].reports|
    ensures NodeOk(payload, t, events[i], n) <==> FairNode(payload, events, i, n + 1)
  {
    hide AfterAll, FairBefore, Shows, FairItem, ItemOk, NoneGone, TellsAgain, Told, FairReport, FlagsOk;
    hide Opened, Numbered;
    var e := events[i];
    var list := Shows(e.reports[n]);
    assert FairReport(e.reports[n]);
    ReportIsFair(e.reports[n]);
    GoneIsMissing(payload, events, i, t, n);
    forall key: Key, value: string
      ensures ToldBy(e, n + 1, key, value) <==> Shown(key, value) in list
      ensures ItemOk(payload, t, e, n, Shown(key, value)) <==> FairItem(payload, events, i, n + 1, key, value)
    {
      SaidIsShown(e.reports[n], key, value);
      ItemIsFair(payload, events, i, t, n, key, value);
    }
    var node := n + 1;
    if NodeOk(payload, t, e, n) {
      forall key, value | ToldBy(e, node, key, value) ensures FairItem(payload, events, i, node, key, value) {
        var k :| 0 <= k < |list| && list[k] == Shown(key, value);
        assert ItemOk(payload, t, e, n, list[k]);
      }
    }
    if FairNode(payload, events, i, node) {
      forall k | 0 <= k < |list| ensures ItemOk(payload, t, e, n, list[k]) {
        assert list[k] == Shown(list[k].key, list[k].value) && list[k] in list;
        assert ToldBy(e, node, list[k].key, list[k].value);
      }
    }
  }

  ghost predicate FairNodes(payload: string -> string, events: seq<Event>, i: nat)
    requires i < |events|
  {
    && FairReports(events[i])
    && forall node :: 1 <= node <= |events[i].reports| ==> FairNode(payload, events, i, node)
  }

  lemma FairByNode(payload: string -> string, events: seq<Event>, i: nat)
    requires i < |events|
    ensures FairNodes(payload, events, i)
      <==> FairReports(events[i]) && FairItems(payload, events, i) && NothingMissing(events, i)
  {
    hide FairItem, Told, FairReport, Says;
    if FairNodes(payload, events, i) {
      forall node, key, value | ToldBy(events[i], node, key, value)
        ensures FairItem(payload, events, i, node, key, value)
      {
        assert FairNode(payload, events, i, node);
      }
      forall node, key | node <= |events[i].reports| && Told(events, i, node, key)
        ensures exists v :: ToldBy(events[i], node, key, v)
      {
        ToldByNode(events, i, node, key);
        assert FairNode(payload, events, i, node);
      }
    }
  }

  lemma ToldByNode(events: seq<Event>, i: nat, node: int, key: Key)
    requires i <= |events| && Told(events, i, node, key)
    ensures node >= 1
  {
  }

  lemma NewIsInvoked(payload: string -> string, events: seq<Event>, i: nat)
    requires i < |events| && Numbered(events) && AfterAll(payload, events, i).Some?
    ensures AsksNew(events, i) <==> Invoked(payload, AfterAll(payload, events, i).value, events[i]).Some?
  {
    hide AfterAll, InvokedAt, CompletedAt, NewOp;
    var key := InvokedKey(events[i]);
    EntriesAreIntervals(payload, events, i, key);
    EverAsked(events, i, key);
    forall k: Key ensures AsksFor(events[i], k) <==> Invokes(events[i]) && k == key {
      AskedKey(events[i], k);
    }
    if exists j :: 0 <= j < i && AsksFor(events[j], key) {
      var j :| 0 <= j < i && AsksFor(events[j], key);
      assert AsksNew(events, i) ==> !AsksFor(events[i], key);
    }
  }

  lemma AskedKey(e: Event, key: Key)
    ensures AsksFor(e, key) <==> Invokes(e) && key == InvokedKey(e)
  {
  }

  lemma {:induction false} FairIsAccepted(payload: string -> string, events: seq<Event>, i: nat)
    requires i <= |events| && Numbered(events)
    ensures AfterAll(payload, events, i).Some? <==> FairBefore(payload, events, i)
  {
    hide FairEvent, NodeOk, FairNode, FairReports, Invoked;
    if i > 0 {
      var k := i - 1;
      FairIsAccepted(payload, events, k);
      if FairBefore(payload, events, k) {
        EventIsFair(payload, events, k);
        assert FairEvent(payload, events, k) ==> FairBefore(payload, events, i);
      } else {
        var j :| 0 <= j < k && !FairEvent(payload, events, j);
        assert !FairBefore(payload, events, i);
      }
    }
  }

  lemma EventIsFair(payload: string -> string, events: seq<Event>, i: nat)
    requires i < |events| && Numbered(events) && FairBefore(payload, events, i) && AfterAll(payload, events, i).Some?
    ensures After(payload, AfterAll(payload, events, i).value, events[i]).Some? <==> FairEvent(payload, events, i)
  {
    hide AfterAll, NodeOk, FairNode, FairReport, FairItems, NothingMissing, AsksNew, FairBefore, Numbered;
    hide WithCompletions;
    NewIsInvoked(payload, events, i);
    FairByNode(payload, events, i);
    var o := Invoked(payload, AfterAll(payload, events, i).value, events[i]);
    if o.Some? {
      if FairReports(events[i]) {
        forall n | 0 <= n < |events[i].reports|
          ensures NodeOk(payload, o.value, events[i], n) <==> FairNode(payload, events, i, n + 1)
        {
          NodeIsFair(payload, events, i, o.value, n);
        }
        forall node | 1 <= node <= |events[i].reports|
          ensures NodeOk(payload, o.value, events[i], node - 1) <==> FairNode(payload, events, i, node)
        {
          var n := node - 1;
          assert NodeOk(payload, o.value, events[i], n) <==> FairNode(payload, events, i, n + 1);
        }
      } else {
        var n :| 0 <= n < |events[i].reports| && !FairReport(events[i].reports[n]);
        UnfairRefused(payload, o.value, events[i], n);
      }
    }
  }

  lemma UnfairRefused(payload: string -> string, t: Books, e: Event, n: nat)
    requires n < |e.reports| && !FairReport(e.reports[n])
    ensures !NodeOk(payload, t, e, n)
  {
    hide Shows, ItemOk, NoneGone, FairReport;
    ReportIsFair(e.reports[n]);
  }

  // ----- What is extracted ---------------------------------------------------------------------

  /** `asks` lists in their order the events before `i` that ask for an operation. */
  ghost predicate AreAsks(events: seq<Event>, i: nat, asks: seq<nat>)
    requires i <= |events|
  {
    && (forall k :: 0 <= k < |asks| ==> asks[k] < i)
    && (forall k, l :: 0 <= k < l < |asks| ==> asks[k] < asks[l])
    && (forall j :: 0 <= j < i ==> (j in asks <==> events[j].kind == ReadRequest || events[j].kind == Propose))
  }

  /** Event `c` is the first in which the node tells of the operation. */
  ghost predicate FirstTells(events: seq<Event>, c: nat, node: int, key: Key, value: string)
    requires c < |events|
  {
    ToldBy(events[c], node, key, value) && !Told(events, c, node, key)
  }

  /** It is asked for by event `j`, and returns with the first event that tells of it, if any does. */
  ghost predicate Lasts(payload: string -> string, events: seq<Event>, j: nat, key: Key, op: Op)
    requires j < |events|
  {
    && op.invoked == events[j].number
    && (!Told(events, |events|, events[j].node, key) ==> op.returned == -1 && op.result == "")
    && (forall c, v :: 0 <= c < |events| && FirstTells(events, c, events[j].node, key, v) ==>
          op.returned == events[c].number && op.result == payload(v))
  }

  /** The operation is what event `j` asks for, under way from then until the first event that tells of it. */
  ghost predicate Describes(payload: string -> string, events: seq<Event>, j: nat, op: Op)
    requires j < |events|
  {
    var e := events[j];
    if e.kind == Propose then
      && op.kind == Write && op.id == "write:" + payload(e.proposalContext) && op.value == payload(e.value)
      && Lasts(payload, events, j, Key(Write, e.proposalContext), op)
    else
      && op.kind == Read && op.id == "read:" + payload(e.value) && op.value == ""
      && Lasts(payload, events, j, Key(Read, e.value), op)
  }

  ghost predicate DescribeAll(payload: string -> string, events: seq<Event>, asks: seq<nat>, ops: seq<Op>) {
    && AreAsks(events, |events|, asks) && |ops| == |asks|
    && forall k :: 0 <= k < |asks| ==> Describes(payload, events, asks[k], ops[k])
  }

  ghost predicate IsHistory(payload: string -> string, events: seq<Event>, ops: seq<Op>) {
    exists asks :: DescribeAll(payload, events, asks, ops)
  }

  lemma {:induction false} OrderIsAsked(payload: string -> string, events: seq<Event>, i: nat) returns (asks: seq<nat>)
    requires i <= |events| && AfterAll(payload, events, i).Some?
    ensures AreAsks(events, i, asks)
    ensures var order := AfterAll(payload, events, i).value.order;
      |order| == |asks| && forall k :: 0 <= k < |asks| ==> order[k] == InvokedKey(events[asks[k]])
  {
    hide NodeOk, WithCompletions, InvokedKey;
    asks := [];
    if i > 0 {
      var j := i - 1;
      var before := OrderIsAsked(payload, events, j);
      asks := before;
      if Invokes(events[j]) {
        asks := before + [j];
        assert asks[|before|] == j;
        assert forall k :: 0 <= k < j ==> (k in asks <==> k in before);
      }
      SameOrder(payload, AfterAll(payload, events, j).value, events[j]);
    }
  }

  lemma SameOrder(payload: string -> string, s: Books, e: Event)
    requires After(payload, s, e).Some?
    ensures After(payload, s, e).value.order == s.order + if Invokes(e) then [InvokedKey(e)] else []
  {
    hide NodeOk, InvokedKey;
  }

  lemma OpIsDescribed(payload: string -> string, events: seq<Event>, j: nat)
    requires j < |events| && Numbered(events) && AfterAll(payload, events, |events|).Some? && Invokes(events[j])
    ensures var ops, key := AfterAll(payload, events, |events|).value.ops, InvokedKey(events[j]);
      key in ops && Describes(payload, events, j, ops[key])
  {
    hide AfterAll, InvokedAt, CompletedAt, FairEvent, FairBefore, Numbered, Lasts;
    FairIsAccepted(payload, events, |events|);
    EntriesAreIntervals(payload, events, |events|, InvokedKey(events[j]));
    FirstAsk(payload, events, j);
    OpLasts(payload, events, j);
  }

  lemma OpLasts(payload: string -> string, events: seq<Event>, j: nat)
    requires j < |events| && Numbered(events) && AfterAll(payload, events, |events|).Some? && Invokes(events[j])
    requires InvokedKey(events[j]) in AfterAll(payload, events, |events|).value.ops
    ensures var key := InvokedKey(events[j]);
      Lasts(payload, events, j, key, AfterAll(payload, events, |events|).value.ops[key])
  {
    hide AfterAll, InvokedAt, CompletedAt, Told, ToldBy, ShownBy, FairEvent, Numbered, NewOp, InvokedKey;
    var n, node, key := |events|, events[j].node, InvokedKey(events[j]);
    FairIsAccepted(payload, events, n);
    EntriesAreIntervals(payload, events, n, key);
    FirstAsk(payload, events, j);
    BeforeHasFairReports(payload, events, n);
    EverTold(events, n, node, key);
    forall c, v | 0 <= c < n && FirstTells(events, c, node, key, v)
      ensures CompletedAt(events, n, node, key) == Some(c) && ShownBy(events[c], node, key) == Some(v)
    {
      assert FairReports(events[c]);
      ToldIsShown(events[c], node, key, v);
      FirstTold(events, c, node, key);
    }
  }

  /** An accepted record asks for each operation once. */
  lemma FirstAsk(payload: string -> string, events: seq<Event>, j: nat)
    requires j < |events| && Invokes(events[j]) && FairBefore(payload, events, |events|)
    ensures InvokedAt(events, |events|, InvokedKey(events[j])) == Some(j)
  {
    hide InvokedAt, FairReports, FairItems, NothingMissing;
    var n, key := |events|, InvokedKey(events[j]);
    EverAsked(events, n, key);
    assert AsksFor(events[j], key);
    var k := InvokedAt(events, n, key).value;
    assert FairEvent(payload, events, j) && FairEvent(payload, events, k);
  }

  lemma FirstTold(events: seq<Event>, c: nat, node: int, key: Key)
    requires c < |events| && ShownBy(events[c], node, key).Some? && !Told(events, c, node, key)
    requires forall k :: 0 <= k < |events| ==> FairReports(events[k])
    ensures CompletedAt(events, |events|, node, key) == Some(c)
  {
    hide ShownBy, ToldBy, Told, FairReports;
    var n := |events|;
    EverTold(events, c, node, key);
    CompletedGrows(events, c + 1, n, node, key);
  }

  lemma {:induction false} CompletedGrows(events: seq<Event>, i: nat, n: nat, node: int, key: Key)
    requires i <= n <= |events| && CompletedAt(events, i, node, key).Some?
    ensures CompletedAt(events, n, node, key) == CompletedAt(events, i, node, key)
  {
    hide ShownBy;
    if i < n { CompletedGrows(events, i, n - 1, node, key); }
  }

  /** What the books hold at the end, in their order, is the history the record tells. */
  lemma BooksAreHistory(payload: string -> string, events: seq<Event>)
    requires Numbered(events) && AfterAll(payload, events, |events|).Some?
    requires Paired(AfterAll(payload, events, |events|).value)
    ensures IsHistory(payload, events, InOrder(AfterAll(payload, events, |events|).value))
  {
    hide AfterAll, Describes, InvokedKey, Numbered;
    var s := AfterAll(payload, events, |events|).value;
    var asks := OrderIsAsked(payload, events, |events|);
    forall k | 0 <= k < |asks| ensures Describes(payload, events, asks[k], InOrder(s)[k]) {
      assert asks[k] in asks;
      OpIsDescribed(payload, events, asks[k]);
    }
    assert DescribeAll(payload, events, asks, InOrder(s));
  }

  method Extract(payload: string -> string, events: seq<Event>) returns (r: Option<seq<Op>>)
    ensures Numbered(events) ==> (r.Some? <==> FairBefore(payload, events, |events|))
    ensures Numbered(events) && r.Some? ==> IsHistory(payload, events, r.value)
    ensures r.Some? <==> AfterAll(payload, events, |events|).Some?
    ensures r.Some? ==> Paired(AfterAll(payload, events, |events|).value)
    ensures r.Some? ==> r.value == InOrder(AfterAll(payload, events, |events|).value)
  {
    hide After, FairEvent, IsHistory, Numbered;
    if Numbered(events) { FairIsAccepted(payload, events, |events|); }
    var s := EMPTY;
    assert SetOf(EMPTY.order) == {} && EMPTY.ops.Keys == {} && EMPTY.owners.Keys == {};
    for i := 0 to |events|
      invariant Paired(s) && AfterAll(payload, events, i) == Some(s)
    {
      var next := StepEvent(payload, s, events[i]);
      if next.None? {
        Refused(payload, events, i + 1);
        return None;
      }
      s := next.value;
    }
    if Numbered(events) { BooksAreHistory(payload, events); }
    return Some(InOrder(s));
  }
}

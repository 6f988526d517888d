/** The host's books on replica migrations: which run, which wait to be resumed, what is stored, who was called back. */
module MigrationHost {
  import opened Common
  import IntentStore

  /** A migration as requested, stored and recovered. */
  type Intent = IntentStore.Intent

  datatype Limits = Limits(maxActive: nat, maxAddressBytes: nat, hasStore: bool, stepBudget: nat)

  datatype Error =
    | InvalidGroupId | InvalidNodeId | ReplicaMigrationConflict | PeerAddressMissing | GroupOperationBackpressure
    | InvalidConfig | ShuttingDown | GroupNotFound | GroupFailed | DuplicateRequest | MigrationIntentIo
    | Timeout | ReplicaMigrationCancelled

  /** The group a request names, as the host finds it. */
  datatype GroupState = Unknown | Terminal | Stopping | Serving

  /** What became of a write to the intent store: it may fail and yet have taken effect. */
  datatype Effect = Done | Failed | FailedAfterEffect
  {
    predicate Took() { !Failed? }
  }

  /** A migration under way, with the ticket of the request that started it. */
  datatype Running = Running(intent: Intent, ticket: nat)

  datatype Callback = Callback(groupId: U64, ticket: nat, error: Option<Error>)

  datatype State = State(
    active: map<U64, Running>,
    ids: seq<U64>,
    recovered: map<U64, Intent>,
    stored: map<U64, Intent>,
    cursor: nat,
    accepted: nat,
    called: seq<Callback>)

  // ----- Requests ------------------------------------------------------------------------------

  function RequestFault(k: Limits, req: Intent): Option<Error> {
    if req.groupId == 0 then Some(InvalidGroupId)
    else if req.source == 0 || req.target == 0 then Some(InvalidNodeId)
    else if req.source == req.target then Some(ReplicaMigrationConflict)
    else if req.address == [] then Some(PeerAddressMissing)
    else if |req.address| > k.maxAddressBytes then Some(GroupOperationBackpressure)
    else if req.timeoutTicks == 0 || req.stableTicks == 0 then Some(InvalidConfig)
    else None
  }

  function GroupFault(stopped: bool, group: GroupState): Option<Error> {
    if stopped then Some(ShuttingDown) else
    match group
    case Unknown => Some(GroupNotFound)
    case Terminal => Some(GroupFailed)
    case Stopping => Some(ShuttingDown)
    case Serving => None
  }

  /** One migration per group; a recovered one is resumed only as it was; otherwise there must be room. */
  function RoomFault(k: Limits, s: State, req: Intent): Option<Error> {
    if req.groupId in s.active then Some(DuplicateRequest)
    else if req.groupId in s.recovered then
      if s.recovered[req.groupId] == req then None else Some(ReplicaMigrationConflict)
    else if |s.active.Keys| + |s.recovered.Keys| >= k.maxActive then Some(GroupOperationBackpressure)
    else None
  }

  function Refusal(k: Limits, s: State, req: Intent, stopped: bool, group: GroupState): Option<Error> {
    if RequestFault(k, req).Some? then RequestFault(k, req)
    else if GroupFault(stopped, group).Some? then GroupFault(stopped, group)
    else RoomFault(k, s, req)
  }

  /** The state once `req` is on the books. */
  function Enlisted(s: State, req: Intent): State {
    s.(active := s.active[req.groupId := Running(req, s.accepted)],
       ids := s.ids + [req.groupId],
       recovered := s.recovered - {req.groupId},
       accepted := s.accepted + 1)
  }

  /** The intent is stored before the request is accepted; a recovered one is already stored. */
  function Requested(k: Limits, s: State, req: Intent, stopped: bool, group: GroupState, put: Effect)
    : (State, Option<Error>)
  {
    var refusal := Refusal(k, s, req, stopped, group);
    if refusal.Some? then (s, refusal)
    else if req.groupId in s.recovered || !k.hasStore then (Enlisted(s, req), None)
    else
      var t := if put.Took() then s.(stored := s.stored[req.groupId := req]) else s;
      if put.Done? then (Enlisted(t, req), None) else (t, Some(MigrationIntentIo))
  }

  // ----- Finishing -----------------------------------------------------------------------------

  /** `ids` without its first `g`, order kept. */
  function Without(ids: seq<U64>, g: U64): seq<U64> {
    if ids == [] then [] else if ids[0] == g then ids[1..] else [ids[0]] + Without(ids[1..], g)
  }

  function CursorIn(cursor: nat, ids: seq<U64>): nat {
    if ids == [] then 0 else if cursor >= |ids| then cursor % |ids| else cursor
  }

  /** Ending with `ShuttingDown` keeps the intent; any other end removes it, and failing at that is the error. */
  function Finished(k: Limits, s: State, g: U64, error: Option<Error>, remove: Effect): State
    requires g in s.active
  {
    var removes := k.hasStore && error != Some(ShuttingDown);
    var final := if removes && !remove.Done? then Some(MigrationIntentIo) else error;
    var ids := Without(s.ids, g);
    s.(active := s.active - {g},
       ids := ids,
       stored := if removes && remove.Took() then s.stored - {g} else s.stored,
       cursor := CursorIn(s.cursor, ids),
       called := s.called + [Callback(g, s.active[g].ticket, final)])
  }

  // ----- The same, reason by reason ------------------------------------------------------------

  ghost predicate NodesNamed(req: Intent) {
    req.groupId != 0 && req.source != 0 && req.target != 0 && req.source != req.target
  }

  ghost predicate WellFormed(k: Limits, req: Intent) {
    && NodesNamed(req) && 0 < |req.address| <= k.maxAddressBytes && req.timeoutTicks != 0 && req.stableTicks != 0
  }

  ghost predicate Taken(k: Limits, req: Intent, stopped: bool, group: GroupState) {
    WellFormed(k, req) && !stopped && group == Serving
  }

  /** No migration of the group runs, and it is either the recovered one or one more that there is room for. */
  ghost predicate HasPlace(k: Limits, s: State, req: Intent) {
    && req.groupId !in s.active
    && (if req.groupId in s.recovered then s.recovered[req.groupId] == req
        else |s.active.Keys| + |s.recovered.Keys| < k.maxActive)
  }

  ghost predicate Writes(k: Limits, s: State, req: Intent, stopped: bool, group: GroupState) {
    Taken(k, req, stopped, group) && HasPlace(k, s, req) && k.hasStore && req.groupId !in s.recovered
  }

  /** Each answer to a request, exactly when it is given. */
  ghost predicate AnswersRequest(
    k: Limits, s: State, req: Intent, stopped: bool, group: GroupState, put: Effect, r: Option<Error>)
  {
    match r
    case None =>
      && Taken(k, req, stopped, group) && HasPlace(k, s, req)
      && (Writes(k, s, req, stopped, group) ==> put == Done)
    case Some(InvalidGroupId) => req.groupId == 0
    case Some(InvalidNodeId) => req.groupId != 0 && (req.source == 0 || req.target == 0)
    case Some(ReplicaMigrationConflict) =>
      || (req.groupId != 0 && req.source == req.target != 0)
      || (Taken(k, req, stopped, group) && req.groupId !in s.active && req.groupId in s.recovered
          && s.recovered[req.groupId] != req)
    case Some(PeerAddressMissing) => NodesNamed(req) && req.address == []
    case Some(GroupOperationBackpressure) =>
      || (NodesNamed(req) && |req.address| > k.maxAddressBytes && req.address != [])
      || (Taken(k, req, stopped, group) && req.groupId !in s.active && req.groupId !in s.recovered
          && |s.active.Keys| + |s.recovered.Keys| >= k.maxActive)
    case Some(InvalidConfig) =>
      && NodesNamed(req) && 0 < |req.address| <= k.maxAddressBytes && (req.timeoutTicks == 0 || req.stableTicks == 0)
    case Some(ShuttingDown) => WellFormed(k, req) && (stopped || group == Stopping)
    case Some(GroupNotFound) => WellFormed(k, req) && !stopped && group == Unknown
    case Some(GroupFailed) => WellFormed(k, req) && !stopped && group == Terminal
    case Some(DuplicateRequest) => Taken(k, req, stopped, group) && req.groupId in s.active
    case Some(MigrationIntentIo) => Writes(k, s, req, stopped, group) && put != Done
    case Some(_) => false
  }

  /** Only an accepted request gets on the books, last in line; the store is written to before that. */
  ghost predicate RequestEffects(
    k: Limits, s: State, req: Intent, stopped: bool, group: GroupState, put: Effect, r: Option<Error>, t: State)
  {
    var g := req.groupId;
    && t.called == s.called && t.cursor == s.cursor
    && t.stored == (if Writes(k, s, req, stopped, group) && put != Failed then s.stored[g := req] else s.stored)
    && if r.Some? then
         t.active == s.active && t.ids == s.ids && t.recovered == s.recovered && t.accepted == s.accepted
       else
         && t.active == s.active[g := Running(req, s.accepted)] && t.ids == s.ids + [g]
         && t.recovered == s.recovered - {g} && t.accepted == s.accepted + 1
  }

  lemma RequestMeans(k: Limits, s: State, req: Intent, stopped: bool, group: GroupState, put: Effect)
    ensures var (t, r) := Requested(k, s, req, stopped, group, put);
      AnswersRequest(k, s, req, stopped, group, put, r) && RequestEffects(k, s, req, stopped, group, put, r, t)
  {
    hide AnswersRequest, RequestEffects;
    RequestAnswered(k, s, req, stopped, group, put);
    RequestTakesEffect(k, s, req, stopped, group, put);
  }

  lemma RequestAnswered(k: Limits, s: State, req: Intent, stopped: bool, group: GroupState, put: Effect)
    ensures AnswersRequest(k, s, req, stopped, group, put, Requested(k, s, req, stopped, group, put).1)
  {
    hide Enlisted;
  }

  lemma RequestTakesEffect(k: Limits, s: State, req: Intent, stopped: bool, group: GroupState, put: Effect)
    ensures var (t, r) := Requested(k, s, req, stopped, group, put);
      RequestEffects(k, s, req, stopped, group, put, r, t)
  {
    hide Refusal, Writes;
    RefusalMeans(k, s, req, stopped, group);
  }

  lemma RefusalMeans(k: Limits, s: State, req: Intent, stopped: bool, group: GroupState)
    ensures Writes(k, s, req, stopped, group)
      <==> Refusal(k, s, req, stopped, group).None? && k.hasStore && req.groupId !in s.recovered
  {
  }

  /** The callback gets the migration's own error, or that removing its intent failed; the rest of the line moves up. */
  ghost predicate FinishEffects(k: Limits, s: State, g: U64, error: Option<Error>, remove: Effect, t: State)
    requires g in s.active
  {
    var keeps := !k.hasStore || error == Some(ShuttingDown);
    && t.active == s.active - {g} && t.recovered == s.recovered && t.accepted == s.accepted
    && t.stored == (if keeps || remove == Failed then s.stored else s.stored - {g})
    && t.called == s.called + [
         Callback(g, s.active[g].ticket, if keeps || remove == Done then error else Some(MigrationIntentIo))]
    && (g in s.ids ==> exists p :: 0 <= p < |s.ids| && s.ids[p] == g && t.ids == s.ids[..p] + s.ids[p + 1..])
    && InLine(s.cursor, t.ids, t.cursor)
  }

  /** The cursor stays, but for wrapping round the end of the line. */
  ghost predicate InLine(before: nat, ids: seq<U64>, cursor: nat) {
    if ids == [] then cursor == 0
    else
      cursor < |ids| && (before < |ids| ==> cursor == before) && (before == |ids| ==> cursor == 0)
  }

  lemma {:induction false} WithoutOccurrence(ids: seq<U64>, g: U64) returns (p: nat)
    requires g in ids
    ensures p < |ids| && ids[p] == g && Without(ids, g) == ids[..p] + ids[p + 1..]
  {
    if ids[0] == g {
      p := 0;
      assert ids[..0] + ids[1..] == ids[1..];
    } else {
      InRest(ids, g);
      var q := WithoutOccurrence(ids[1..], g);
      p := q + 1;
      assert Without(ids, g) == [ids[0]] + Without(ids[1..], g);
      hide Without;
      ShiftedSplit(ids, q);
    }
  }

  lemma {:induction false} WithoutFirst(ids: seq<U64>, p: nat, g: U64)
    requires p < |ids| && ids[p] == g && forall j :: 0 <= j < p ==> ids[j] != g
    ensures Without(ids, g) == ids[..p] + ids[p + 1..]
  {
    if p == 0 {
      assert ids[..0] + ids[1..] == ids[1..];
    } else {
      assert forall j :: 0 <= j < p - 1 ==> ids[1..][j] == ids[j + 1];
      WithoutFirst(ids[1..], p - 1, g);
      assert Without(ids, g) == [ids[0]] + Without(ids[1..], g);
      hide Without;
      ShiftedSplit(ids, p - 1);
    }
  }

  lemma {:induction false} WithoutNone(ids: seq<U64>, g: U64)
    requires forall j :: 0 <= j < |ids| ==> ids[j] != g
    ensures Without(ids, g) == ids
  {
    if ids != [] {
      WithoutNone(ids[1..], g);
      assert ids == [ids[0]] + ids[1..];
    }
  }

  lemma InRest(ids: seq<U64>, g: U64)
    requires g in ids && ids[0] != g
    ensures g in ids[1..]
  {
    assert ids == [ids[0]] + ids[1..];
  }

  lemma ShiftedSplit(ids: seq<U64>, q: nat)
    requires q + 1 < |ids|
    ensures [ids[0]] + (ids[1..][..q] + ids[1..][q + 1..]) == ids[..q + 1] + ids[q + 2..]
    ensures ids[1..][q] == ids[q + 1]
  {
  }

  lemma FinishMeans(k: Limits, s: State, g: U64, error: Option<Error>, remove: Effect)
    requires g in s.active
    ensures FinishEffects(k, s, g, error, remove, Finished(k, s, g, error, remove))
  {
    hide Without, CursorIn, InLine;
    var ids := Without(s.ids, g);
    if g in s.ids { var p := WithoutOccurrence(s.ids, g); }
    CursorInLine(s.cursor, ids);
  }

  lemma CursorInLine(cursor: nat, ids: seq<U64>)
    ensures InLine(cursor, ids, CursorIn(cursor, ids))
  {
    if cursor == |ids| > 0 { SameRemainder(cursor); }
  }

  lemma SameRemainder(n: nat)
    requires n > 0
    ensures n % n == 0
  {
  }

  // ----- Starting ------------------------------------------------------------------------------

  const EMPTY: State := State(map[], [], map[], map[], 0, 0, [])

  /** A host that starts takes every stored intent as recovered, or does not start at all. */
  function Started(k: Limits, stored: map<U64, Intent>): Result<State, Error> {
    if !k.hasStore then Ok(EMPTY)
    else if |stored.Keys| > k.maxActive then Err(GroupOperationBackpressure)
    else Ok(EMPTY.(recovered := stored, stored := stored))
  }

  // ----- Sound books ---------------------------------------------------------------------------

  function Tickets(called: seq<Callback>): (r: seq<nat>)
    ensures |r| == |called| && forall i :: 0 <= i < |r| ==> r[i] == called[i].ticket
  {
    seq(|called|, i requires 0 <= i < |called| => called[i].ticket)
  }

  /** The id list is the active set without repetition, and the two kinds of migration together keep to the limit. */
  ghost predicate Listed(k: Limits, s: State) {
    && Distinct(s.ids) && SetOf(s.ids) == s.active.Keys
    && s.active.Keys !! s.recovered.Keys
    && |s.active.Keys| + |s.recovered.Keys| <= k.maxActive
    && (if s.ids == [] then s.cursor == 0 else s.cursor < |s.ids|)
  }

  /** Every active or recovered migration is stored as it was requested. */
  ghost predicate Durable(k: Limits, s: State) {
    && (forall g :: g in s.stored ==> s.stored[g].groupId == g)
    && (forall g :: g in s.active ==> s.active[g].intent.groupId == g)
    && (k.hasStore ==> forall g :: g in s.active ==> g in s.stored && s.stored[g] == s.active[g].intent)
    && (forall g :: g in s.recovered ==> g in s.stored && s.stored[g] == s.recovered[g])
  }

  /** Each accepted request either still runs or was called back, once. */
  ghost predicate Answered(s: State) { AnsweredOnce(s.active, s.accepted, Tickets(s.called)) }

  ghost predicate AnsweredOnce(active: map<U64, Running>, accepted: nat, called: seq<nat>) {
    && Distinct(called)
    && (forall g, h :: g in active && h in active && active[g].ticket == active[h].ticket ==> g == h)
    && (forall g :: g in active ==> active[g].ticket < accepted && active[g].ticket !in called)
    && (forall t :: t in called ==> t < accepted)
    && (forall t: nat :: t < accepted && t !in called ==> Runs(active, t))
  }

  ghost predicate Runs(active: map<U64, Running>, ticket: nat) {
    exists g :: g in active && active[g].ticket == ticket
  }

  ghost predicate Sound(k: Limits, s: State) { Listed(k, s) && Durable(k, s) && Answered(s) }

  /** Nothing is stored but what is active or recovered. */
  ghost predicate Tight(s: State) { s.stored.Keys == s.active.Keys + s.recovered.Keys }

  // ----- Every operation keeps them ------------------------------------------------------------

  lemma {:induction false} WithoutOne(ids: seq<U64>, g: U64)
    requires Distinct(ids) && g in ids
    ensures Distinct(Without(ids, g)) && SetOf(Without(ids, g)) == SetOf(ids) - {g}
    ensures |Without(ids, g)| == |ids| - 1
  {
    if ids[0] == g {
      assert ids == [g] + ids[1..];
      SetOfAppend([g], ids[1..]);
      assert g !in ids[1..];
    } else {
      assert ids == [ids[0]] + ids[1..];
      WithoutOne(ids[1..], g);
      SetOfAppend([ids[0]], ids[1..]);
      SetOfAppend([ids[0]], Without(ids[1..], g));
      assert ids[0] !in ids[1..];
      assert ids[0] !in SetOf(Without(ids[1..], g));
      assert SetOf([ids[0]]) == {ids[0]};
    }
  }

  lemma MovedBetween(a: set<U64>, b: set<U64>, g: U64)
    requires g !in a
    ensures |a + {g}| + |b - {g}| == |a| + |b| + if g in b then 0 else 1
  {
    if g !in b { assert b - {g} == b; }
  }

  lemma EnlistedListed(k: Limits, s: State, req: Intent)
    requires Listed(k, s) && RoomFault(k, s, req).None?
    ensures Listed(k, Enlisted(s, req))
  {
    var g := req.groupId;
    assert g !in s.ids by { assert g in s.ids ==> g in SetOf(s.ids); }
    DistinctAppend(s.ids, g);
    var t := Enlisted(s, req);
    assert t.active.Keys == s.active.Keys + {g};
    assert t.recovered.Keys == s.recovered.Keys - {g};
    MovedBetween(s.active.Keys, s.recovered.Keys, g);
  }

  lemma EnlistedAnswered(s: State, req: Intent)
    requires Answered(s) && req.groupId !in s.active
    ensures Answered(Enlisted(s, req))
  {
    hide Tickets;
    OneMoreRuns(s.active, s.accepted, Tickets(s.called), req);
  }

  lemma OneMoreRuns(active: map<U64, Running>, accepted: nat, called: seq<nat>, req: Intent)
    requires AnsweredOnce(active, accepted, called) && req.groupId !in active
    ensures AnsweredOnce(active[req.groupId := Running(req, accepted)], accepted + 1, called)
  {
    var after := active[req.groupId := Running(req, accepted)];
    forall t: nat | t < accepted + 1 && t !in called ensures Runs(after, t) {
      if t < accepted {
        assert Runs(active, t);
        var g :| g in active && active[g].ticket == t;
        assert after[g].ticket == t;
      } else {
        assert after[req.groupId].ticket == t;
      }
    }
  }

  lemma EnlistedDurable(k: Limits, s: State, req: Intent)
    requires Durable(k, s) && req.groupId !in s.active
    requires k.hasStore ==> req.groupId in s.stored && s.stored[req.groupId] == req
    ensures Durable(k, Enlisted(s, req))
  {
  }

  lemma StoredDurable(k: Limits, s: State, req: Intent)
    requires Durable(k, s) && req.groupId !in s.active && req.groupId !in s.recovered
    ensures Durable(k, s.(stored := s.stored[req.groupId := req]))
  {
  }

  lemma SameBooks(k: Limits, s: State, t: State)
    requires t == s.(stored := t.stored)
    ensures Listed(k, t) == Listed(k, s) && Answered(t) == Answered(s)
  {
  }

  lemma RequestKeeps(k: Limits, s: State, req: Intent, stopped: bool, group: GroupState, put: Effect)
    requires Sound(k, s)
    ensures Sound(k, Requested(k, s, req, stopped, group, put).0)
  {
    hide Listed, Answered, Durable, Enlisted, GroupFault, RequestFault;
    if Refusal(k, s, req, stopped, group).None? {
      var g := req.groupId;
      if g in s.recovered || !k.hasStore {
        assert k.hasStore ==> g in s.stored && s.stored[g] == req by { RecoveredIsStored(k, s, g); }
        EnlistedListed(k, s, req);
        EnlistedAnswered(s, req);
        EnlistedDurable(k, s, req);
      } else {
        var t := s.(stored := s.stored[g := req]);
        StoredDurable(k, s, req);
        SameBooks(k, s, t);
        EnlistedListed(k, t, req);
        EnlistedAnswered(t, req);
        EnlistedDurable(k, t, req);
      }
    }
  }

  lemma RecoveredIsStored(k: Limits, s: State, g: U64)
    requires Durable(k, s)
    ensures g in s.recovered ==> g in s.stored && s.stored[g] == s.recovered[g]
  {
  }

  /** Only a write that took effect and yet reported failure leaves more in the store than the books know of. */
  lemma RequestStaysTight(k: Limits, s: State, req: Intent, stopped: bool, group: GroupState, put: Effect)
    requires Sound(k, s) && Tight(s) && k.hasStore
    requires put != FailedAfterEffect
    ensures Tight(Requested(k, s, req, stopped, group, put).0)
  {
    hide Listed, Answered, Durable, Refusal;
    var t := Requested(k, s, req, stopped, group, put).0;
    if t != s {
      assert t.active.Keys == s.active.Keys + {req.groupId};
      assert t.recovered.Keys == s.recovered.Keys - {req.groupId};
      assert t.stored.Keys == s.stored.Keys + {req.groupId};
    }
  }

  lemma FinishedListed(k: Limits, s: State, g: U64, error: Option<Error>, remove: Effect)
    requires Listed(k, s) && g in s.active
    ensures Listed(k, Finished(k, s, g, error, remove))
  {
    assert g in s.ids by { assert g in SetOf(s.ids); }
    WithoutOne(s.ids, g);
    var t := Finished(k, s, g, error, remove);
    assert t.active.Keys == s.active.Keys - {g};
  }

  lemma FinishedAnswered(k: Limits, s: State, g: U64, error: Option<Error>, remove: Effect)
    requires Answered(s) && g in s.active
    ensures Answered(Finished(k, s, g, error, remove))
  {
    assert Tickets(Finished(k, s, g, error, remove).called) == Tickets(s.called) + [s.active[g].ticket];
    OneFewerRuns(s.active, s.accepted, Tickets(s.called), g);
  }

  lemma OneFewerRuns(active: map<U64, Running>, accepted: nat, called: seq<nat>, g: U64)
    requires AnsweredOnce(active, accepted, called) && g in active
    ensures AnsweredOnce(active - {g}, accepted, called + [active[g].ticket])
  {
    var n := active[g].ticket;
    DistinctAppend(called, n);
    forall t: nat | t < accepted && t !in called + [n] ensures Runs(active - {g}, t) {
      assert t !in called && t != n by { assert (called + [n])[|called|] == n; }
      assert Runs(active, t);
      var h :| h in active && active[h].ticket == t;
      assert h in active - {g};
    }
  }

  lemma FinishedDurable(k: Limits, s: State, g: U64, error: Option<Error>, remove: Effect)
    requires Durable(k, s) && g in s.active && g !in s.recovered
    ensures Durable(k, Finished(k, s, g, error, remove))
  {
  }

  lemma FinishKeeps(k: Limits, s: State, g: U64, error: Option<Error>, remove: Effect)
    requires Sound(k, s) && g in s.active
    ensures Sound(k, Finished(k, s, g, error, remove))
  {
    hide Answered, Listed, Durable, Finished;
    ActiveNotRecovered(k, s, g);
    FinishedListed(k, s, g, error, remove);
    FinishedAnswered(k, s, g, error, remove);
    FinishedDurable(k, s, g, error, remove);
  }

  /** Short of shutdown, finishing leaves nothing behind unless the removal did not take effect. */
  lemma FinishStaysTight(k: Limits, s: State, g: U64, error: Option<Error>, remove: Effect)
    requires Sound(k, s) && g in s.active && Tight(s) && k.hasStore
    ensures Tight(Finished(k, s, g, error, remove)) <==> error != Some(ShuttingDown) && remove.Took()
  {
    hide Answered, Durable, Without, CursorIn, Listed;
    ActiveNotRecovered(k, s, g);
    var t := Finished(k, s, g, error, remove);
    assert t.active.Keys == s.active.Keys - {g} && t.recovered.Keys == s.recovered.Keys;
    assert g in s.stored.Keys;
    if error != Some(ShuttingDown) && remove.Took() {
      assert t.stored.Keys == s.stored.Keys - {g};
      assert t.stored.Keys == t.active.Keys + t.recovered.Keys;
    } else {
      assert g in t.stored.Keys && g !in t.active.Keys + t.recovered.Keys;
    }
  }

  lemma ActiveNotRecovered(k: Limits, s: State, g: U64)
    requires Listed(k, s) && g in s.active
    ensures g !in s.recovered
  {
    assert g in s.active.Keys;
  }

  /**
   * A crash keeps only the store: the host starts again exactly when what is stored fits the limit, and then
   * everything that was active or recovered is recovered as it was requested.
   */
  lemma RestartRecovers(k: Limits, s: State)
    requires Sound(k, s) && k.hasStore
    ensures Started(k, s.stored).Ok? <==> |s.stored.Keys| <= k.maxActive
    ensures Tight(s) ==> Started(k, s.stored).Ok?
    ensures Started(k, s.stored).Ok? ==>
      var t := Started(k, s.stored).value;
      && Sound(k, t) && Tight(t)
      && (forall g :: g in s.active ==> g in t.recovered && t.recovered[g] == s.active[g].intent)
      && (forall g :: g in s.recovered ==> g in t.recovered && t.recovered[g] == s.recovered[g])
  {
    hide Listed, Answered, Durable;
    if Tight(s) { TightFits(k, s); }
    if |s.stored.Keys| <= k.maxActive {
      StoredIntents(k, s);
      FreshStart(k, s.stored);
    }
  }

  lemma TightFits(k: Limits, s: State)
    requires Listed(k, s) && Tight(s)
    ensures |s.stored.Keys| <= k.maxActive
  {
  }

  lemma StoredIntents(k: Limits, s: State)
    requires Durable(k, s) && k.hasStore
    ensures forall g :: g in s.stored ==> s.stored[g].groupId == g
    ensures forall g :: g in s.active ==> g in s.stored && s.stored[g] == s.active[g].intent
    ensures forall g :: g in s.recovered ==> g in s.stored && s.stored[g] == s.recovered[g]
  {
  }

  lemma FreshStart(k: Limits, stored: map<U64, Intent>)
    requires |stored.Keys| <= k.maxActive && forall g :: g in stored ==> stored[g].groupId == g
    ensures Sound(k, EMPTY.(recovered := stored, stored := stored))
    ensures Tight(EMPTY.(recovered := stored, stored := stored))
  {
    var t := EMPTY.(recovered := stored, stored := stored);
    assert t.active.Keys == {} && SetOf(t.ids) == {} && Tickets(t.called) == [];
  }

  // ----- What the books call stored is what the disk brings back -------------------------------

  /** Every directory version a crash could bring back holds exactly these intents. */
  ghost predicate OnDisk(k: Limits, crc: IntentStore.Checksum, d: IntentStore.Disk, stored: map<U64, Intent>) {
    forall dir :: dir in d.candidates ==> IntentStore.Intents(crc, k.maxAddressBytes, d, dir) == stored
  }

  /** Wherever a put stops, a crash brings back what the books have after one that took effect or one that did not. */
  lemma PutOnDisk(
      k: Limits, s: State, req: Intent, crc: IntentStore.Checksum,
      d: IntentStore.Disk, e: IntentStore.Disk, after: IntentStore.Disk)
    requires k.hasStore && Refusal(k, s, req, false, Serving).None? && req.groupId !in s.recovered
    requires |req.address| < 0x1_0000_0000 && OnDisk(k, crc, d, s.stored)
    requires IntentStore.Safe(e) && IntentStore.CrashesTo(e, after)
    requires IntentStore.OldOrNew(d, e, req.groupId, Some(IntentStore.Record(crc, req)))
    ensures exists put :: OnDisk(k, crc, after, Requested(k, s, req, false, Serving, put).0.stored)
  {
    hide IntentStore.Safe, IntentStore.OldOrNew, IntentStore.Record, IntentStore.Intents;
    var prior := IntentStore.PutRecovers(crc, k.maxAddressBytes, d, e, after, req);
    var back := IntentStore.Intents(crc, k.maxAddressBytes, after, after.current);
    var put := if back == s.stored then Failed else Done;
    assert OnDisk(k, crc, after, Requested(k, s, req, false, Serving, put).0.stored);
  }

  /** And so it is for the removal at the end of a migration. */
  lemma RemovalOnDisk(
      k: Limits, s: State, g: U64, error: Option<Error>, crc: IntentStore.Checksum,
      d: IntentStore.Disk, e: IntentStore.Disk, after: IntentStore.Disk)
    requires k.hasStore && g in s.active && error != Some(ShuttingDown) && OnDisk(k, crc, d, s.stored)
    requires IntentStore.Safe(e) && IntentStore.CrashesTo(e, after) && IntentStore.OldOrNew(d, e, g, None)
    ensures exists remove :: OnDisk(k, crc, after, Finished(k, s, g, error, remove).stored)
  {
    hide IntentStore.Safe, IntentStore.OldOrNew, IntentStore.Intents;
    var prior := IntentStore.RemoveRecovers(crc, k.maxAddressBytes, d, e, after, g);
    var back := IntentStore.Intents(crc, k.maxAddressBytes, after, after.current);
    var remove := if back == s.stored then Failed else Done;
    assert OnDisk(k, crc, after, Finished(k, s, g, error, remove).stored);
  }

  /** A start from a disk with whole records loads the stored intents exactly when the books let the host start. */
  lemma StartOnDisk(k: Limits, crc: IntentStore.Checksum, d: IntentStore.Disk, stored: map<U64, Intent>)
    requires k.hasStore && IntentStore.Safe(d) && IntentStore.Whole(crc, k.maxAddressBytes, d)
    requires OnDisk(k, crc, d, stored)
    ensures Started(k, stored).Ok? <==> |IntentStore.Groups(d.current.Keys)| <= k.maxActive
    ensures forall g :: g in stored ==> stored[g].groupId == g
  {
    IntentStore.WholeIntents(crc, k.maxAddressBytes, d, d.current);
  }

  // ----- Whole lives, with crashes -------------------------------------------------------------

  datatype Event =
    | Request(req: Intent, stopped: bool, group: GroupState, put: Effect)
    | Finish(g: U64, error: Option<Error>, remove: Effect)
    | CrashAndStart

  predicate Possible(k: Limits, s: State, e: Event) {
    match e
    case Request(_, _, _, _) => true
    case Finish(g, _, _) => g in s.active
    case CrashAndStart => Started(k, if k.hasStore then s.stored else map[]).Ok?
  }

  function After(k: Limits, s: State, e: Event): State
    requires Possible(k, s, e)
  {
    match e
    case Request(req, stopped, group, put) => Requested(k, s, req, stopped, group, put).0
    case Finish(g, error, remove) => Finished(k, s, g, error, remove)
    case CrashAndStart => Started(k, if k.hasStore then s.stored else map[]).value
  }

  ghost predicate IsRun(k: Limits, states: seq<State>, events: seq<Event>) {
    && |states| == |events| + 1 && states[0] == EMPTY
    && forall i :: 0 <= i < |events| ==>
         Possible(k, states[i], events[i]) && states[i + 1] == After(k, states[i], events[i])
  }

  lemma EmptyIsSound(k: Limits)
    ensures Sound(k, EMPTY) && Tight(EMPTY)
  {
    assert Tickets(EMPTY.called) == [];
  }

  /** The books are sound at every point of every life of the host, across any number of crashes. */
  lemma {:induction false} RunsAreSound(k: Limits, states: seq<State>, events: seq<Event>, n: nat)
    requires IsRun(k, states, events) && n < |states|
    ensures Sound(k, states[n])
  {
    hide Requested, Finished, Started;
    if n == 0 {
      EmptyIsSound(k);
    } else {
      RunsAreSound(k, states, events, n - 1);
      var s := states[n - 1];
      match events[n - 1]
      case Request(req, stopped, group, put) => RequestKeeps(k, s, req, stopped, group, put);
      case Finish(g, error, remove) => FinishKeeps(k, s, g, error, remove);
      case CrashAndStart => StartIsSound(k, s);
    }
  }

  lemma StartIsSound(k: Limits, s: State)
    requires Sound(k, s) && Possible(k, s, CrashAndStart)
    ensures Sound(k, After(k, s, CrashAndStart))
  {
    EmptyIsSound(k);
    if k.hasStore { RestartRecovers(k, s); }
  }

  function Below(n: nat): (r: set<nat>)
    ensures |r| == n && forall t: nat :: t in r <==> t < n
  {
    if n == 0 then {} else Below(n - 1) + {n - 1}
  }

  /** Whenever nothing is active, every request accepted in this life has been called back exactly once. */
  lemma AllAnswered(s: State)
    requires Answered(s) && s.active == map[]
    ensures Distinct(Tickets(s.called)) && SetOf(Tickets(s.called)) == Below(s.accepted)
    ensures |s.called| == s.accepted
  {
    DistinctCardinality(Tickets(s.called));
    forall t: nat | t < s.accepted ensures t in Tickets(s.called) { assert Runs(s.active, t) ==> s.active != map[]; }
  }

  // ----- Why a start can be refused ------------------------------------------------------------

  /**
   * The event leaves an intent in the store that the books do not know of: a write that took effect and yet
   * reported failure, a removal that did not take effect, or a migration ended by `ShuttingDown`, which one
   * stopping group produces while the host goes on.
   */
  predicate Leaves(k: Limits, s: State, e: Event) {
    match e
    case Request(req, stopped, group, put) =>
      && k.hasStore && put.FailedAfterEffect? && req.groupId !in s.recovered
      && Refusal(k, s, req, stopped, group).None?
    case Finish(_, error, remove) => k.hasStore && (error == Some(ShuttingDown) || !remove.Took())
    case CrashAndStart => false
  }

  /** Exactly these events turn books that know the whole store into books that do not. */
  lemma LeavesExactly(k: Limits, s: State, e: Event)
    requires Sound(k, s) && Tight(s) && k.hasStore && Possible(k, s, e)
    ensures Tight(After(k, s, e)) <==> !Leaves(k, s, e)
  {
    hide Sound, Requested, Finished, Started, Refusal;
    match e
    case Request(req, stopped, group, put) => RequestTightness(k, s, req, stopped, group, put);
    case Finish(g, error, remove) => FinishStaysTight(k, s, g, error, remove);
    case CrashAndStart => RestartRecovers(k, s);
  }

  lemma RequestTightness(k: Limits, s: State, req: Intent, stopped: bool, group: GroupState, put: Effect)
    requires Sound(k, s) && Tight(s) && k.hasStore
    ensures Tight(Requested(k, s, req, stopped, group, put).0)
      <==> !Leaves(k, s, Request(req, stopped, group, put))
  {
    hide Listed, Answered, Durable, RequestFault, GroupFault;
    if Leaves(k, s, Request(req, stopped, group, put)) {
      var t := Requested(k, s, req, stopped, group, put).0;
      assert req.groupId in t.stored.Keys && req.groupId !in s.active.Keys + s.recovered.Keys;
    } else if put == FailedAfterEffect {
      RequestUntouched(k, s, req, stopped, group);
    } else {
      RequestStaysTight(k, s, req, stopped, group, put);
    }
  }

  /** A refused or resumed request does not write to the store. */
  lemma RequestUntouched(k: Limits, s: State, req: Intent, stopped: bool, group: GroupState)
    requires Tight(s) && k.hasStore && !Leaves(k, s, Request(req, stopped, group, FailedAfterEffect))
    ensures Tight(Requested(k, s, req, stopped, group, FailedAfterEffect).0)
  {
    hide Refusal;
    var t := Requested(k, s, req, stopped, group, FailedAfterEffect).0;
    if t != s {
      assert t.active.Keys == s.active.Keys + {req.groupId};
      assert t.recovered.Keys == s.recovered.Keys - {req.groupId};
    }
  }

  /** In every run, whenever the host could not start again, one of these events happened since its last start. */
  lemma RestartFailsForCause(k: Limits, states: seq<State>, events: seq<Event>, n: nat) returns (i: nat)
    requires IsRun(k, states, events) && n < |states| && k.hasStore
    requires !Possible(k, states[n], CrashAndStart)
    ensures i < n && Leaves(k, states[i], events[i])
    ensures forall j :: i <= j < n ==> events[j] != CrashAndStart
  {
    hide Sound, After;
    RunsAreSound(k, states, events, n);
    RestartRecovers(k, states[n]);
    i := CauseOf(k, states, events, n);
  }

  lemma {:induction false} CauseOf(k: Limits, states: seq<State>, events: seq<Event>, n: nat) returns (i: nat)
    requires IsRun(k, states, events) && n < |states| && k.hasStore && !Tight(states[n])
    ensures i < n && Leaves(k, states[i], events[i])
    ensures forall j :: i <= j < n ==> events[j] != CrashAndStart
  {
    hide Sound, After, Leaves;
    EmptyIsSound(k);
    var s := states[n - 1];
    RunsAreSound(k, states, events, n - 1);
    StartIsTight(k, s);
    if Tight(s) {
      LeavesExactly(k, s, events[n - 1]);
      i := n - 1;
    } else {
      i := CauseOf(k, states, events, n - 1);
    }
  }

  lemma StartIsTight(k: Limits, s: State)
    requires k.hasStore && Sound(k, s)
    ensures Possible(k, s, CrashAndStart) ==> Tight(After(k, s, CrashAndStart))
  {
    hide Sound;
    RestartRecovers(k, s);
  }

  /**
   * And each of them can be the cause. On a full host, a migration whose end leaves its intent behind makes room
   * for a request, and then more is stored than the next start accepts; with `ShuttingDown` that takes no failure
   * of the store at all.
   */
  lemma LeftoverBlocksRestart(k: Limits, s: State, g: U64, error: Option<Error>, remove: Effect, req: Intent)
    requires Sound(k, s) && Tight(s) && k.hasStore && |s.stored.Keys| == k.maxActive
    requires g in s.active && Leaves(k, s, Finish(g, error, remove))
    requires req.groupId !in s.stored && RequestFault(k, req).None?
    ensures var t := Finished(k, s, g, error, remove);
      var u := Requested(k, t, req, false, Serving, Done);
      u.1.None? && !Possible(k, u.0, CrashAndStart)
  {
    hide Sound, Finished, Requested;
    RoomAgain(k, s, g, error, remove, req);
    AcceptedIsStored(k, Finished(k, s, g, error, remove), req);
  }

  /** With one place left, the same comes of a write that took effect and reported failure. */
  lemma UnreportedWriteBlocksRestart(k: Limits, s: State, a: Intent, b: Intent)
    requires Sound(k, s) && Tight(s) && k.hasStore && |s.stored.Keys| + 1 == k.maxActive
    requires RequestFault(k, a).None? && RequestFault(k, b).None? && a.groupId != b.groupId
    requires a.groupId !in s.stored && b.groupId !in s.stored
    ensures Leaves(k, s, Request(a, false, Serving, FailedAfterEffect))
    ensures var t := Requested(k, s, a, false, Serving, FailedAfterEffect).0;
      var u := Requested(k, t, b, false, Serving, Done);
      u.1.None? && !Possible(k, u.0, CrashAndStart)
  {
    hide Sound, Requested, RequestFault, Refusal;
    RoomFor(k, s, a);
    RoomFor(k, s, b);
    var t := s.(stored := s.stored[a.groupId := a]);
    WrittenUnreported(k, s, a, b);
    AcceptedIsStored(k, t, b);
  }

  lemma WrittenUnreported(k: Limits, s: State, a: Intent, b: Intent)
    requires k.hasStore && a.groupId !in s.stored && a.groupId != b.groupId && a.groupId !in s.recovered
    requires Refusal(k, s, a, false, Serving).None?
    ensures var t := Requested(k, s, a, false, Serving, FailedAfterEffect).0;
      && t == s.(stored := s.stored[a.groupId := a]) && |t.stored.Keys| == |s.stored.Keys| + 1
      && Refusal(k, t, b, false, Serving) == Refusal(k, s, b, false, Serving)
  {
    hide RequestFault, GroupFault;
    var t := Requested(k, s, a, false, Serving, FailedAfterEffect).0;
    OneMoreStored(s.stored, a);
    SameRefusal(k, s, t, b);
  }

  lemma OneMoreStored(stored: map<U64, Intent>, a: Intent)
    requires a.groupId !in stored
    ensures |stored[a.groupId := a].Keys| == |stored.Keys| + 1
  {
    assert stored[a.groupId := a].Keys == stored.Keys + {a.groupId};
  }

  lemma SameRefusal(k: Limits, s: State, t: State, b: Intent)
    requires t == s.(stored := t.stored)
    ensures Refusal(k, t, b, false, Serving) == Refusal(k, s, b, false, Serving)
  {
  }

  lemma RoomFor(k: Limits, s: State, req: Intent)
    requires Sound(k, s) && Tight(s) && |s.stored.Keys| < k.maxActive
    requires RequestFault(k, req).None? && req.groupId !in s.stored
    ensures Refusal(k, s, req, false, Serving).None? && req.groupId !in s.recovered
  {
    hide Durable, Answered, RequestFault;
    RoomLeft(s.active.Keys, s.recovered.Keys, s.stored.Keys);
    assert req.groupId !in s.active.Keys + s.recovered.Keys;
  }

  lemma RoomLeft(a: set<U64>, b: set<U64>, u: set<U64>)
    requires a !! b && u == a + b
    ensures |a| + |b| == |u|
  {
  }

  lemma OneLess(a: set<U64>, b: set<U64>, g: U64)
    requires g in a && a !! b
    ensures |a - {g}| + |b| == |a + b| - 1
  {
  }

  lemma RoomAgain(k: Limits, s: State, g: U64, error: Option<Error>, remove: Effect, req: Intent)
    requires Sound(k, s) && Tight(s) && k.hasStore && |s.stored.Keys| == k.maxActive && g in s.active
    requires Leaves(k, s, Finish(g, error, remove))
    requires req.groupId !in s.stored && RequestFault(k, req).None?
    ensures var t := Finished(k, s, g, error, remove);
      Refusal(k, t, req, false, Serving).None? && t.stored == s.stored && req.groupId !in t.recovered
  {
    hide Durable, Answered, Without, CursorIn, RequestFault;
    OneLess(s.active.Keys, s.recovered.Keys, g);
    var t := Finished(k, s, g, error, remove);
    assert t.active.Keys == s.active.Keys - {g} && t.recovered == s.recovered;
    assert req.groupId !in s.stored.Keys;
    assert req.groupId !in s.active.Keys && req.groupId !in s.recovered.Keys;
  }

  lemma AcceptedIsStored(k: Limits, t: State, req: Intent)
    requires k.hasStore && Refusal(k, t, req, false, Serving).None? && req.groupId !in t.recovered
    requires req.groupId !in t.stored
    ensures var u := Requested(k, t, req, false, Serving, Done);
      u.1.None? && |u.0.stored.Keys| == |t.stored.Keys| + 1
  {
    hide Refusal;
    var u := Requested(k, t, req, false, Serving, Done).0;
    assert u.stored.Keys == t.stored.Keys + {req.groupId} && req.groupId !in t.stored.Keys;
  }

  // ----- One drive over the migrations ---------------------------------------------------------

  /** The entry `n` places on from the start, counting round. */
  function Around(ids: seq<U64>, n: nat): (g: U64)
    requires ids != []
    ensures g in ids
  {
    ids[n % |ids|]
  }

  /** The migrations stepped by a drive, in order; those whose turn `ends` marks finish as they are stepped. */
  function Visits(ids: seq<U64>, cursor: nat, ends: seq<bool>, turn: nat): seq<U64>
    requires turn <= |ends|
    decreases |ends| - turn
  {
    if turn == |ends| || ids == [] then []
    else
      var g := Around(ids, cursor + turn);
      if ends[turn] then [g] + Visits(Without(ids, g), CursorIn(cursor, Without(ids, g)), ends, turn + 1)
      else [g] + Visits(ids, cursor, ends, turn + 1)
  }

  lemma VisitsNext(ids: seq<U64>, cursor: nat, ends: seq<bool>, turn: nat)
    requires turn < |ends| && ids != []
    ensures var g := Around(ids, cursor + turn);
      Visits(ids, cursor, ends, turn) == [g]
        + if ends[turn] then Visits(Without(ids, g), CursorIn(cursor, Without(ids, g)), ends, turn + 1)
          else Visits(ids, cursor, ends, turn + 1)
  {
  }

  /** While none finishes, a drive steps one migration after the other, round from the cursor. */
  lemma {:induction false} VisitsInTurn(ids: seq<U64>, cursor: nat, ends: seq<bool>, turn: nat, i: nat)
    requires turn + i < |ends| && ids != [] && forall j :: turn <= j < |ends| ==> !ends[j]
    ensures |Visits(ids, cursor, ends, turn)| > i
    ensures Visits(ids, cursor, ends, turn)[i] == Around(ids, cursor + turn + i)
    decreases i
  {
    hide Around, Visits, Without, CursorIn;
    VisitsNext(ids, cursor, ends, turn);
    if i > 0 {
      VisitsInTurn(ids, cursor, ends, turn + 1, i - 1);
    }
  }

  /** The entries a drive would step if the list stayed as it is. */
  function InTurn(ids: seq<U64>, cursor: nat, turns: nat, turn: nat): seq<U64>
    requires turn <= turns && ids != []
    decreases turns - turn
  {
    if turn == turns then [] else [Around(ids, cursor + turn)] + InTurn(ids, cursor, turns, turn + 1)
  }

  lemma InTurnNext(ids: seq<U64>, cursor: nat, turns: nat, turn: nat)
    requires turn < turns && ids != []
    ensures InTurn(ids, cursor, turns, turn) == [Around(ids, cursor + turn)] + InTurn(ids, cursor, turns, turn + 1)
  {
  }

  /** With two or three left the next turn can fall on the right one all the same. */
  predicate Harmless(n: nat, cursor: nat, turn: nat) { n == 2 || (n == 3 && cursor == 2 && turn == 1) }

  /**
   * A drive steps the migrations in turn if and only if none finishes before its last turn, short of
   * the few cases in which two or three are left and the shift comes to nothing.
   */
  lemma DriveKeepsTurns(ids: seq<U64>, cursor: nat, ends: seq<bool>)
    requires Distinct(ids) && cursor < |ids| && |ends| <= |ids|
    ensures Visits(ids, cursor, ends, 0) == InTurn(ids, cursor, |ends|, 0)
      <==> forall i :: 0 <= i < |ends| - 1 && ends[i] ==> Harmless(|ids|, cursor, i)
  {
    TurnsKeptFrom(ids, cursor, ends, 0);
  }

  lemma {:induction false} TurnsKeptFrom(ids: seq<U64>, cursor: nat, ends: seq<bool>, turn: nat)
    requires Distinct(ids) && cursor < |ids| && |ends| <= |ids| && turn <= |ends|
    ensures Visits(ids, cursor, ends, turn) == InTurn(ids, cursor, |ends|, turn)
      <==> forall i :: turn <= i < |ends| - 1 && ends[i] ==> Harmless(|ids|, cursor, i)
    decreases |ends| - turn
  {
    hide Around, Without, CursorIn, Distinct;
    if turn < |ends| {
      if !ends[turn] {
        TurnsKeptFrom(ids, cursor, ends, turn + 1);
        var g := Around(ids, cursor + turn);
        SameRest(g, Visits(ids, cursor, ends, turn + 1), InTurn(ids, cursor, |ends|, turn + 1));
      } else if turn + 1 < |ends| {
        FinishedEarly(ids, cursor, ends, turn);
      }
    }
  }

  /** A migration that finishes before the last turn upsets the order, unless that is harmless. */
  lemma FinishedEarly(ids: seq<U64>, cursor: nat, ends: seq<bool>, turn: nat)
    requires Distinct(ids) && cursor < |ids| && |ends| <= |ids| && turn + 1 < |ends| && ends[turn]
    ensures Visits(ids, cursor, ends, turn) == InTurn(ids, cursor, |ends|, turn) <==> Harmless(|ids|, cursor, turn)
  {
    hide Around, Without, CursorIn, Distinct, Visits, InTurn;
    var g := Around(ids, cursor + turn);
    var left := Without(ids, g);
    var c := CursorIn(cursor, left);
    ShiftedTurn(ids, cursor, turn);
    VisitsNext(ids, cursor, ends, turn);
    InTurnNext(ids, cursor, |ends|, turn);
    SameRest(g, Visits(left, c, ends, turn + 1), InTurn(ids, cursor, |ends|, turn + 1));
    VisitsNext(left, c, ends, turn + 1);
    InTurnNext(ids, cursor, |ends|, turn + 1);
    assert Visits(left, c, ends, turn + 1)[0] == Around(left, c + (turn + 1));
    assert InTurn(ids, cursor, |ends|, turn + 1)[0] == Around(ids, cursor + (turn + 1));
    if Harmless(|ids|, cursor, turn) { LastTurn(left, c, ids, cursor, ends, turn + 1); }
  }

  lemma SameRest(g: U64, a: seq<U64>, b: seq<U64>)
    ensures [g] + a == [g] + b <==> a == b
  {
    assert ([g] + a)[1..] == a && ([g] + b)[1..] == b;
  }

  lemma LastTurn(left: seq<U64>, c: nat, ids: seq<U64>, cursor: nat, ends: seq<bool>, turn: nat)
    requires left != [] && ids != [] && turn + 1 == |ends| && Around(left, c + turn) == Around(ids, cursor + turn)
    ensures Visits(left, c, ends, turn) == InTurn(ids, cursor, |ends|, turn)
  {
    hide Around;
  }

  lemma Multiples(n: nat, a: nat, b: nat)
    requires a >= b
    ensures n * a >= n * b
  {
  }

  /** Within two rounds, counting round is one subtraction at most. */
  lemma AroundAt(ids: seq<U64>, n: nat)
    requires n < 2 * |ids|
    ensures Around(ids, n) == ids[Wrap(|ids|, n)]
  {
    var q, r := n / |ids|, n % |ids|;
    assert n == |ids| * q + r;
    Multiples(|ids|, Max(q, 2), 2);
    if q == 0 { assert |ids| * q == 0; }
    if q == 1 { assert |ids| * q == |ids|; }
  }

  lemma {:induction false} WithoutAt(ids: seq<U64>, p: nat)
    requires Distinct(ids) && p < |ids|
    ensures Without(ids, ids[p]) == ids[..p] + ids[p + 1..]
  {
    WithoutFirst(ids, p, ids[p]);
  }

  /** The shortened list, counted round, told as places in the old one. */
  lemma ShortenedAround(ids: seq<U64>, p: nat, m: nat)
    requires Distinct(ids) && p < |ids| && |ids| > 1 && m < 2 * (|ids| - 1)
    ensures var left := Without(ids, ids[p]);
      |left| == |ids| - 1 && Around(left, m) == ids[Skip(p, Wrap(|ids| - 1, m))]
  {
    hide Without, Around, Distinct, Wrap;
    WithoutAt(ids, p);
    AroundAt(ids[..p] + ids[p + 1..], m);
  }

  function Skip(p: nat, v: nat): nat { if v < p then v else v + 1 }

  /** Taking out the migration whose turn it is puts another one next, unless that is harmless. */
  lemma ShiftedTurn(ids: seq<U64>, cursor: nat, turn: nat)
    requires Distinct(ids) && cursor < |ids| && turn + 1 < |ids|
    ensures var left := Without(ids, Around(ids, cursor + turn));
      && left != []
      && (Around(left, CursorIn(cursor, left) + (turn + 1)) == Around(ids, cursor + (turn + 1))
          <==> Harmless(|ids|, cursor, turn))
  {
    hide Around, Without, CursorIn, Harmless, Distinct;
    var n := |ids|;
    var p := Wrap(n, cursor + turn);
    var c := if cursor == n - 1 then 0 else cursor;
    AroundAt(ids, cursor + turn);
    AroundAt(ids, cursor + (turn + 1));
    ShortenedAround(ids, p, c + (turn + 1));
    CursorAfter(cursor, Without(ids, ids[p]));
    SamePlace(ids, Skip(p, Wrap(n - 1, c + (turn + 1))), Wrap(n, cursor + (turn + 1)));
    PlaceAfterShift(n, cursor, turn);
  }

  function Wrap(n: nat, x: nat): (r: nat)
    requires x < 2 * n
    ensures r < n
  {
    if x < n then x else x - n
  }

  lemma SamePlace(ids: seq<U64>, v: nat, w: nat)
    requires Distinct(ids) && v < |ids| && w < |ids|
    ensures ids[v] == ids[w] <==> v == w
  {
  }

  /** Where the next turn falls in the shortened list, told as a place in the old one. */
  lemma PlaceAfterShift(n: nat, cursor: nat, turn: nat)
    requires cursor < n && turn + 1 < n
    ensures var p := Wrap(n, cursor + turn);
      var v := Wrap(n - 1, (if cursor == n - 1 then 0 else cursor) + (turn + 1));
      Skip(p, v) == Wrap(n, cursor + (turn + 1)) <==> Harmless(n, cursor, turn)
  {
  }

  lemma CursorAfter(cursor: nat, left: seq<U64>)
    requires left != [] && cursor <= |left|
    ensures CursorIn(cursor, left) == if cursor == |left| then 0 else cursor
  {
  }

  /** As when the second of three finishes: the first is stepped twice and the third not at all. */
  lemma FinishingShiftsTurns()
    ensures Visits([1, 2, 3], 0, [false, true, false], 0) == [1, 2, 1]
  {
    var ids: seq<U64> := [1, 2, 3];
    assert ids[1..] == [2, 3] && Without([2, 3], 2) == [3];
    assert Without(ids, 2) == [1, 3];
    var left: seq<U64> := [1, 3];
    assert Visits(left, 0, [false, true, false], 3) == [];
    assert Visits(left, 0, [false, true, false], 2) == [1];
    assert Visits(ids, 0, [false, true, false], 1) == [2, 1];
  }

  // ----- The host ------------------------------------------------------------------------------

  /** What stepping a migration led to; the step itself is modelled elsewhere. */
  datatype StepOutcome = Idle | Worked | Completed(error: Option<Error>, remove: Effect)

  class Host {
    const limits: Limits
    var active: map<U64, Running>
    var ids: seq<U64>
    var recovered: map<U64, Intent>
    var stored: map<U64, Intent>
    var cursor: nat
    var accepted: nat
    var called: seq<Callback>

    ghost function View(): State
      reads this
    {
      State(active, ids, recovered, stored, cursor, accepted, called)
    }

    constructor (limits: Limits, started: State)
      requires exists stored :: Started(limits, stored) == Ok(started)
      ensures this.limits == limits && View() == started
    {
      this.limits := limits;
      active, ids, cursor, accepted, called := map[], [], 0, 0, [];
      recovered, stored := started.recovered, started.stored;
    }

    method CheckRequest(req: Intent) returns (r: Option<Error>)
      ensures r == RequestFault(limits, req)
    {
      if req.groupId == 0 { return Some(InvalidGroupId); }
      if req.source == 0 || req.target == 0 { return Some(InvalidNodeId); }
      if req.source == req.target { return Some(ReplicaMigrationConflict); }
      if req.address == [] { return Some(PeerAddressMissing); }
      if |req.address| > limits.maxAddressBytes { return Some(GroupOperationBackpressure); }
      if req.timeoutTicks == 0 || req.stableTicks == 0 { return Some(InvalidConfig); }
      return None;
    }

    method CheckGroup(stopped: bool, group: GroupState) returns (r: Option<Error>)
      ensures r == GroupFault(stopped, group)
    {
      if stopped { return Some(ShuttingDown); }
      if group == Unknown { return Some(GroupNotFound); }
      if group == Terminal { return Some(GroupFailed); }
      if group == Stopping { return Some(ShuttingDown); }
      return None;
    }

    method CheckRoom(req: Intent) returns (r: Option<Error>)
      ensures r == RoomFault(limits, View(), req)
    {
      if req.groupId in active { return Some(DuplicateRequest); }
      if req.groupId in recovered {
        if recovered[req.groupId] != req { return Some(ReplicaMigrationConflict); }
      } else if |active.Keys| + |recovered.Keys| >= limits.maxActive {
        return Some(GroupOperationBackpressure);
      }
      return None;
    }

    method Enlist(req: Intent)
      modifies this
      ensures View() == Enlisted(old(View()), req)
    {
      active := active[req.groupId := Running(req, accepted)];
      ids := ids + [req.groupId];
      recovered := recovered - {req.groupId};
      accepted := accepted + 1;
    }

    method RequestReplicaMigration(req: Intent, stopped: bool, group: GroupState, put: Effect)
      returns (r: Option<Error>)
      modifies this
      ensures View() == Requested(limits, old(View()), req, stopped, group, put).0
      ensures r == Requested(limits, old(View()), req, stopped, group, put).1
      ensures AnswersRequest(limits, old(View()), req, stopped, group, put, r)
      ensures RequestEffects(limits, old(View()), req, stopped, group, put, r, View())
    {
      RequestMeans(limits, View(), req, stopped, group, put);
      hide AnswersRequest, RequestEffects;
      hide RequestFault, GroupFault, RoomFault, Enlisted;
      var fault := CheckRequest(req);
      if fault.Some? { return fault; }
      fault := CheckGroup(stopped, group);
      if fault.Some? { return fault; }
      fault := CheckRoom(req);
      if fault.Some? { return fault; }
      if req.groupId !in recovered && limits.hasStore {
        if put.Took() { stored := stored[req.groupId := req]; }
        if put != Done { return Some(MigrationIntentIo); }
      }
      Enlist(req);
      return None;
    }

    method RemoveReplicaMigrationId(g: U64)
      modifies this`ids, this`cursor
      ensures ids == Without(old(ids), g)
      ensures cursor == if g in old(ids) then CursorIn(old(cursor), ids) else old(cursor)
    {
      hide Without;
      for i := 0 to |ids|
        invariant ids == old(ids) && cursor == old(cursor) && forall j :: 0 <= j < i ==> ids[j] != g
      {
        if ids[i] == g {
          WithoutFirst(ids, i, g);
          ids := ids[..i] + ids[i + 1..];
          if |ids| == 0 { cursor := 0; } else if cursor >= |ids| { cursor := cursor % |ids|; }
          return;
        }
      }
      WithoutNone(ids, g);
    }

    method FinishReplicaMigration(g: U64, error: Option<Error>, remove: Effect)
      requires g in active && g in ids
      modifies this
      ensures View() == Finished(limits, old(View()), g, error, remove)
      ensures FinishEffects(limits, old(View()), g, error, remove, View())
    {
      FinishMeans(limits, View(), g, error, remove);
      hide FinishEffects;
      var final := error;
      if error != Some(ShuttingDown) && limits.hasStore {
        if remove.Took() { stored := stored - {g}; }
        if remove != Done { final := Some(MigrationIntentIo); }
      }
      var ticket := active[g].ticket;
      active := active - {g};
      RemoveReplicaMigrationId(g);
      called := called + [Callback(g, ticket, final)];
    }

    /** At shutdown everything still active is finished with the same error, in list order. */
    method FailReplicaMigrations(error: Error, removes: U64 -> Effect)
      requires Sound(limits, View())
      modifies this
      ensures Sound(limits, View()) && active == map[] && ids == []
      ensures accepted == old(accepted) && recovered == old(recovered) && |called| == accepted
      ensures error == ShuttingDown ==> stored == old(stored)
      ensures old(called) <= called
      ensures forall i :: |old(called)| <= i < |called| ==>
        called[i].error in {Some(error), Some(MigrationIntentIo)}
    {
      hide Sound, Finished, FinishEffects, Without, Tickets;
      while ids != []
        invariant Sound(limits, View())
        invariant accepted == old(accepted) && recovered == old(recovered)
        invariant error == ShuttingDown ==> stored == old(stored)
        invariant old(called) <= called
        invariant forall i :: |old(called)| <= i < |called| ==>
          called[i].error in {Some(error), Some(MigrationIntentIo)}
        decreases |ids|
      {
        var g := ids[0];
        SoundBooks(limits, View());
        FinishedBooks(limits, View(), g, Some(error), removes(g));
        FinishedRest(limits, View(), g, error, removes(g));
        FinishReplicaMigration(g, Some(error), removes(g));
      }
      SoundBooks(limits, View());
      NoneLeft(limits, View());
    }

    /** At most the step budget of migrations is stepped, round from the cursor. */
    method DriveReplicaMigrations(outcomes: seq<StepOutcome>) returns (stepped: seq<U64>, hadWork: bool)
      requires Sound(limits, View())
      requires |outcomes| == Min(limits.stepBudget, |ids|)
      modifies this
      ensures Sound(limits, View()) && recovered == old(recovered) && accepted == old(accepted)
      ensures stepped == Visits(old(ids), old(cursor), Ends(outcomes), 0)
      ensures |stepped| <= |outcomes|
      ensures forall g :: g in active <==> g in old(active) && !Finishes(stepped, outcomes, g)
      ensures forall g :: g in active ==> active[g] == old(active)[g]
      ensures (forall i :: 0 <= i < |outcomes| ==> !outcomes[i].Completed?) ==> View() == old(View()).(cursor := cursor)
      ensures (forall i :: 0 <= i < |outcomes| ==> !outcomes[i].Completed?) && ids != [] ==>
        cursor == (old(cursor) + |outcomes|) % |ids|
    {
      hide Sound, Around, Visits, Without, CursorIn;
      hadWork := false;
      stepped := [];
      ghost var ends := Ends(outcomes);
      var turn := 0;
      while turn < |outcomes| && |ids| != 0
        invariant turn <= |outcomes| && Sound(limits, View())
        invariant recovered == old(recovered) && accepted == old(accepted)
        invariant Visits(old(ids), old(cursor), ends, 0) == stepped + Visits(ids, cursor, ends, turn)
        invariant (forall i :: 0 <= i < turn ==> !outcomes[i].Completed?) ==> View() == old(View())
        invariant |stepped| == turn
        invariant forall g :: g in active <==> g in old(active) && !Finishes(stepped, outcomes, g)
        invariant forall g :: g in active ==> active[g] == old(active)[g]
      {
        VisitsNext(ids, cursor, ends, turn);
        ghost var rest := Visits(ids, cursor, ends, turn)[1..];
        var g := StepTurn(turn, outcomes[turn]);
        Reassociate(stepped, g, rest);
        FinishesNext(stepped, outcomes, g);
        stepped := stepped + [g];
        hadWork := hadWork || !outcomes[turn].Idle?;
        turn := turn + 1;
      }
      VisitsEnd(ids, cursor, ends, turn);
      AdvanceCursor(|outcomes|);
    }

    /** The migration whose turn it is, finished if its step completed it. */
    method StepTurn(turn: nat, outcome: StepOutcome) returns (g: U64)
      requires Sound(limits, View()) && ids != []
      modifies this
      ensures Sound(limits, View()) && g == Around(old(ids), old(cursor) + turn)
      ensures recovered == old(recovered) && accepted == old(accepted)
      ensures if outcome.Completed? then ids == Without(old(ids), g) && cursor == CursorIn(old(cursor), ids)
              else View() == old(View())
      ensures AllBut(old(active), active, if outcome.Completed? then {g} else {})
    {
      hide Sound, Finished, FinishEffects, Without, CursorIn, AllBut;
      NoneGone(active);
      SoundBooks(limits, View());
      g := ids[(cursor + turn) % |ids|];
      if outcome.Completed? {
        FinishedBooks(limits, View(), g, outcome.error, outcome.remove);
        FinishedOne(limits, View(), g, outcome.error, outcome.remove);
        FinishReplicaMigration(g, outcome.error, outcome.remove);
      }
    }

    method AdvanceCursor(n: nat)
      requires Sound(limits, View())
      modifies this`cursor
      ensures Sound(limits, View())
      ensures cursor == if ids == [] then 0 else (old(cursor) + n) % |ids|
    {
      hide Sound;
      CursorMoves(limits, View(), n);
      if |ids| == 0 { cursor := 0; } else { cursor := (cursor + n) % |ids|; }
    }
  }

  /** The migration was stepped in one of these turns, and the step completed it. */
  ghost predicate Finishes(stepped: seq<U64>, outcomes: seq<StepOutcome>, g: U64)
    requires |stepped| <= |outcomes|
  {
    exists i :: 0 <= i < |stepped| && stepped[i] == g && outcomes[i].Completed?
  }

  lemma FinishesNext(stepped: seq<U64>, outcomes: seq<StepOutcome>, g: U64)
    requires |stepped| < |outcomes|
    ensures forall h :: Finishes(stepped + [g], outcomes, h) <==>
      Finishes(stepped, outcomes, h) || (h == g && outcomes[|stepped|].Completed?)
  {
    forall h
      ensures Finishes(stepped + [g], outcomes, h) <==>
        Finishes(stepped, outcomes, h) || (h == g && outcomes[|stepped|].Completed?)
    {
      if Finishes(stepped, outcomes, h) {
        var i :| 0 <= i < |stepped| && stepped[i] == h && outcomes[i].Completed?;
        assert (stepped + [g])[i] == h;
      }
      assert (stepped + [g])[|stepped|] == g;
    }
  }

  lemma Reassociate(a: seq<U64>, g: U64, b: seq<U64>)
    ensures a + ([g] + b) == (a + [g]) + b
  {
  }

  lemma VisitsEnd(ids: seq<U64>, cursor: nat, ends: seq<bool>, turn: nat)
    requires turn <= |ends| && (turn == |ends| || ids == [])
    ensures Visits(ids, cursor, ends, turn) == []
  {
  }

  function Ends(outcomes: seq<StepOutcome>): (r: seq<bool>)
    ensures |r| == |outcomes| && forall i :: 0 <= i < |r| ==> r[i] == outcomes[i].Completed?
  {
    seq(|outcomes|, i requires 0 <= i < |outcomes| => outcomes[i].Completed?)
  }

  lemma SoundBooks(k: Limits, s: State)
    requires Sound(k, s)
    ensures forall g :: g in s.ids <==> g in s.active
    ensures if s.ids == [] then s.cursor == 0 else s.cursor < |s.ids|
  {
    forall g ensures g in s.ids <==> g in s.active {
      assert g in SetOf(s.ids) <==> g in s.active.Keys;
    }
  }

  /** `after` are the migrations of `before` but for those of `gone`. */
  ghost predicate AllBut(before: map<U64, Running>, after: map<U64, Running>, gone: set<U64>) {
    && (forall g :: g in after <==> g in before && g !in gone)
    && forall g :: g in after ==> after[g] == before[g]
  }

  lemma NoneGone(active: map<U64, Running>)
    ensures AllBut(active, active, {})
  {
  }

  lemma FinishedOne(k: Limits, s: State, g: U64, error: Option<Error>, remove: Effect)
    requires g in s.active
    ensures AllBut(s.active, Finished(k, s, g, error, remove).active, {g})
  {
  }

  lemma FinishedRest(k: Limits, s: State, g: U64, error: Error, remove: Effect)
    requires Sound(k, s) && g in s.active
    ensures var t := Finished(k, s, g, Some(error), remove);
      && |t.ids| == |s.ids| - 1 && t.accepted == s.accepted && t.recovered == s.recovered
      && (error == ShuttingDown ==> t.stored == s.stored)
      && |t.called| == |s.called| + 1 && s.called <= t.called
      && t.called[|s.called|].error in {Some(error), Some(MigrationIntentIo)}
  {
    hide Answered, Durable;
    assert g in SetOf(s.ids);
    WithoutOne(s.ids, g);
  }

  lemma NoneLeft(k: Limits, s: State)
    requires Sound(k, s) && s.active == map[]
    ensures |s.called| == s.accepted
  {
    AllAnswered(s);
  }

  lemma FinishedBooks(k: Limits, s: State, g: U64, error: Option<Error>, remove: Effect)
    requires Sound(k, s) && g in s.active
    ensures var t := Finished(k, s, g, error, remove);
      && Sound(k, t) && t.ids == Without(s.ids, g) && t.cursor == CursorIn(s.cursor, t.ids)
      && t.recovered == s.recovered && t.accepted == s.accepted
  {
    hide Sound;
    FinishKeeps(k, s, g, error, remove);
  }

  lemma CursorMoves(k: Limits, s: State, n: nat)
    requires Sound(k, s)
    ensures Sound(k, s.(cursor := if s.ids == [] then 0 else (s.cursor + n) % |s.ids|))
  {
    MovedCursor(k, s, s.(cursor := if s.ids == [] then 0 else (s.cursor + n) % |s.ids|));
  }

  /** The cursor matters only for whose turn it is. */
  lemma MovedCursor(k: Limits, s: State, t: State)
    requires t == s.(cursor := t.cursor)
    ensures Durable(k, t) == Durable(k, s) && Answered(t) == Answered(s)
  {
  }
}

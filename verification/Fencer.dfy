/** The address fencer: a daemon that lets one owner at a time keep its link up, across crashes. */
module Fencer {
  import opened Common

  /** The fencing record, in memory and on disk. Terms and owner ids are never zero. */
  datatype FenceState = FenceState(clusterId: string, term: U64, ownerId: U64, ownerInterface: string)

  datatype Grant = Grant(clusterId: string, term: U64, ownerId: U64)

  datatype Reply = Granted(term: U64, ownerId: U64) | Rejected(reason: Reason)

  datatype Reason =
    | UnknownOwner | ClusterMismatch | OwnerInterfaceMismatch | StaleTerm | TermOwnerConflict
    | OwnerEnableFailed | PreviousOwnerFenceFailed | StatePersistFailed

  /** A link change either takes, or reports failure with the link as it was or already changed. */
  datatype LinkResult = Took | FailedAsWas | FailedButSet

  /** Saving can also fail after the new record has already replaced the old one. */
  datatype PersistResult = Saved | NotSaved | SavedThenFailed

  datatype Env = Env(disable: LinkResult, persist: PersistResult, enable: LinkResult)

  datatype Request = Request(clusterId: string, term: U64, ownerId: U64)

  function Lower(c: char): char {
    if 'A' <= c <= 'Z' then (c as int + 32) as char else c
  }

  function LowerAll(s: string): string { seq(|s|, i requires 0 <= i < |s| => Lower(s[i])) }

  /** Cluster ids are compared without regard to case. */
  predicate SameCluster(a: string, b: string) { LowerAll(a) == LowerAll(b) }

  /** Two letters differ in nothing but their case. */
  predicate CaseApart(a: char, b: char) { 'A' <= a <= 'Z' && b as int == a as int + ('a' as int - 'A' as int) }

  lemma SameClusterMeans(a: string, b: string)
    ensures SameCluster(a, b) <==>
      |a| == |b| && forall i :: 0 <= i < |a| ==> a[i] == b[i] || CaseApart(a[i], b[i]) || CaseApart(b[i], a[i])
  {
    var x, y := LowerAll(a), LowerAll(b);
    if x == y {
      forall i | 0 <= i < |a| ensures a[i] == b[i] || CaseApart(a[i], b[i]) || CaseApart(b[i], a[i]) {
        assert x[i] == y[i];
      }
    }
  }

  // ----- The daemon ----------------------------------------------------------------------------

  /** Everything that matters outside the process too: the disk, the links, and the grants given out. */
  datatype World = World(
    interfaces: map<U64, string>,
    running: bool,
    memory: Option<FenceState>,
    disk: Option<FenceState>,
    up: set<string>,
    grants: seq<Grant>)

  function SetLink(up: set<string>, name: string, on: bool, r: LinkResult): set<string> {
    if r == FailedAsWas then up else if on then up + {name} else up - {name}
  }

  /** What is remembered rules the request out, or does not come into it. */
  ghost predicate Mine(w: World, q: Request) {
    w.memory.Some? ==> SameCluster(w.memory.value.clusterId, q.clusterId)
  }

  /** The owner the request names, on the link it was last granted on if it is the standing one. */
  ghost predicate KnownOwner(w: World, q: Request) {
    && q.ownerId in w.interfaces
    && (w.memory.Some? && w.memory.value.ownerId == q.ownerId ==>
          w.memory.value.ownerInterface == w.interfaces[q.ownerId])
  }

  /** A term that is at least the standing one, and only the standing owner may repeat that. */
  ghost predicate Timely(w: World, q: Request) {
    w.memory.Some? ==>
      q.term >= w.memory.value.term && (q.term == w.memory.value.term ==> q.ownerId == w.memory.value.ownerId)
  }

  ghost predicate Fresh(w: World, q: Request) { w.memory.Some? ==> q.term > w.memory.value.term }

  /** Another owner stands and has to be fenced off first. */
  ghost predicate Fences(w: World, q: Request) { w.memory.Some? && w.memory.value.ownerId != q.ownerId }

  /** Each reply and exactly when it is given: the guards in their order, then the three effects in theirs. */
  ghost predicate Replies(w: World, q: Request, env: Env, reply: Reply) {
    var admitted := Mine(w, q) && KnownOwner(w, q) && Timely(w, q);
    match reply
    case Rejected(UnknownOwner) => q.ownerId !in w.interfaces
    case Rejected(ClusterMismatch) => q.ownerId in w.interfaces && !Mine(w, q)
    case Rejected(OwnerInterfaceMismatch) => q.ownerId in w.interfaces && Mine(w, q) && !KnownOwner(w, q)
    case Rejected(StaleTerm) =>
      Mine(w, q) && KnownOwner(w, q) && w.memory.Some? && q.term < w.memory.value.term
    case Rejected(TermOwnerConflict) =>
      Mine(w, q) && KnownOwner(w, q) && !Timely(w, q) && q.term == w.memory.value.term
    case Rejected(PreviousOwnerFenceFailed) => admitted && Fresh(w, q) && Fences(w, q) && env.disable != Took
    case Rejected(StatePersistFailed) =>
      admitted && Fresh(w, q) && (Fences(w, q) ==> env.disable == Took) && env.persist != Saved
    case Rejected(OwnerEnableFailed) =>
      && admitted && env.enable != Took
      && (Fresh(w, q) ==> (Fences(w, q) ==> env.disable == Took) && env.persist == Saved)
    case Granted(term, ownerId) =>
      && admitted && env.enable == Took && term == q.term && ownerId == q.ownerId
      && (Fresh(w, q) ==> (Fences(w, q) ==> env.disable == Took) && env.persist == Saved)
  }

  /** What is left behind, told by the reply: memory after a good save only, the disk after any, no third link. */
  ghost predicate Effects(w: World, q: Request, env: Env, reply: Reply, t: World) {
    var enabling := reply.Granted? || reply == Rejected(OwnerEnableFailed);
    var fencing := Fresh(w, q) && Fences(w, q)
      && (enabling || reply in {Rejected(PreviousOwnerFenceFailed), Rejected(StatePersistFailed)});
    var saving := Fresh(w, q) && (enabling || reply == Rejected(StatePersistFailed));
    && t.interfaces == w.interfaces && t.running == w.running
    && (if enabling && Fresh(w, q) then IsRecord(t.memory, w, q) else t.memory == w.memory)
    && (if saving && env.persist != NotSaved then IsRecord(t.disk, w, q) else t.disk == w.disk)
    && (forall link :: link in t.up <==>
          || (enabling && env.enable != FailedAsWas && q.ownerId in w.interfaces && link == w.interfaces[q.ownerId])
          || (link in w.up
              && !(fencing && env.disable != FailedAsWas && link == w.memory.value.ownerInterface)))
    && t.grants == if reply.Granted? then w.grants + [Grant(q.clusterId, q.term, q.ownerId)] else w.grants
  }

  ghost predicate IsRecord(r: Option<FenceState>, w: World, q: Request) {
    && r.Some? && q.ownerId in w.interfaces && r.value.ownerInterface == w.interfaces[q.ownerId]
    && r.value.clusterId == q.clusterId && r.value.term == q.term && r.value.ownerId == q.ownerId
  }

  class Daemon {
    const interfaces: map<U64, string>
    var state: Option<FenceState>
    var disk: Option<FenceState>
    var up: set<string>
    ghost var grants: seq<Grant>

    constructor (interfaces: map<U64, string>, disk: Option<FenceState>, up: set<string>, ghost grants: seq<Grant>)
      ensures View() == World(interfaces, true, disk, disk, up, grants)
    {
      this.interfaces, this.state, this.disk, this.up, this.grants := interfaces, disk, disk, up, grants;
    }

    ghost function View(): World
      reads this
    {
      World(interfaces, true, state, disk, up, grants)
    }

    /** Read back after the change: success means the link is as asked. */
    method SetLinkState(name: string, on: bool, r: LinkResult) returns (ok: bool)
      modifies this`up
      ensures ok == (r == Took) && up == SetLink(old(up), name, on, r)
    {
      if r != FailedAsWas {
        up := if on then up + {name} else up - {name};
      }
      return r == Took;
    }

    method PersistState(next: FenceState, r: PersistResult) returns (ok: bool)
      modifies this`disk
      ensures ok == (r == Saved) && disk == if r == NotSaved then old(disk) else Some(next)
    {
      if r != NotSaved { disk := Some(next); }
      return r == Saved;
    }

    method HandleAcquire(q: Request, env: Env) returns (reply: Reply)
      modifies this`state, this`disk, this`up, this`grants
      ensures View() == Acquire(old(View()), q, env)
      ensures Replies(old(View()), q, env, reply) && Effects(old(View()), q, env, reply, View())
      ensures reply.Granted? <==> |grants| == |old(grants)| + 1
      ensures reply.Granted? ==> grants == old(grants) + [Grant(q.clusterId, q.term, q.ownerId)]
      ensures reply.Granted? ==> reply == Granted(q.term, q.ownerId) && interfaces[q.ownerId] in up
    {
      if q.ownerId !in interfaces { return Rejected(UnknownOwner); }
      var name := interfaces[q.ownerId];
      if state.Some? && !SameCluster(state.value.clusterId, q.clusterId) { return Rejected(ClusterMismatch); }
      if state.Some? && q.ownerId == state.value.ownerId && name != state.value.ownerInterface {
        return Rejected(OwnerInterfaceMismatch);
      }
      if state.Some? && q.term < state.value.term { return Rejected(StaleTerm); }
      if state.Some? && q.term == state.value.term {
        if q.ownerId != state.value.ownerId { return Rejected(TermOwnerConflict); }
        var ok := SetLinkState(name, true, env.enable);
        if !ok { return Rejected(OwnerEnableFailed); }
        grants := grants + [Grant(q.clusterId, q.term, q.ownerId)];
        return Granted(q.term, q.ownerId);
      }
      if state.Some? && state.value.ownerId != q.ownerId {
        var ok := SetLinkState(state.value.ownerInterface, false, env.disable);
        if !ok { return Rejected(PreviousOwnerFenceFailed); }
      }
      var next := FenceState(q.clusterId, q.term, q.ownerId, name);
      var saved := PersistState(next, env.persist);
      if !saved { return Rejected(StatePersistFailed); }
      state := Some(next);
      var ok := SetLinkState(name, true, env.enable);
      if !ok { return Rejected(OwnerEnableFailed); }
      grants := grants + [Grant(q.clusterId, q.term, q.ownerId)];
      return Granted(q.term, q.ownerId);
    }
  }

  // ----- The same request, effect by effect ----------------------------------------------------

  /** The request is refused before anything is touched. */
  predicate Refused(w: World, q: Request) {
    || q.ownerId !in w.interfaces
    || (w.memory.Some? && var s := w.memory.value;
        || !SameCluster(s.clusterId, q.clusterId)
        || (q.ownerId == s.ownerId && w.interfaces[q.ownerId] != s.ownerInterface)
        || q.term < s.term
        || (q.term == s.term && q.ownerId != s.ownerId))
  }

  /** The request repeats the standing grant. */
  predicate Repeats(w: World, q: Request) { w.memory.Some? && q.term == w.memory.value.term }

  function NextState(w: World, q: Request): FenceState
    requires q.ownerId in w.interfaces
  {
    FenceState(q.clusterId, q.term, q.ownerId, w.interfaces[q.ownerId])
  }

  predicate MustFence(w: World, q: Request) { w.memory.Some? && w.memory.value.ownerId != q.ownerId }

  function AfterFence(w: World, q: Request, env: Env): World {
    if MustFence(w, q) then w.(up := SetLink(w.up, w.memory.value.ownerInterface, false, env.disable)) else w
  }

  predicate ReachesPersist(w: World, q: Request, env: Env) {
    !Refused(w, q) && !Repeats(w, q) && (MustFence(w, q) ==> env.disable == Took)
  }

  function AfterPersist(w: World, q: Request, env: Env): World
    requires q.ownerId in w.interfaces
  {
    var f := AfterFence(w, q, env);
    match env.persist
    case Saved => f.(disk := Some(NextState(w, q)), memory := Some(NextState(w, q)))
    case NotSaved => f
    case SavedThenFailed => f.(disk := Some(NextState(w, q)))
  }

  function Enabled(w: World, q: Request, env: Env): World
    requires q.ownerId in w.interfaces
  {
    var on := w.(up := SetLink(w.up, w.interfaces[q.ownerId], true, env.enable));
    if env.enable == Took then on.(grants := w.grants + [Grant(q.clusterId, q.term, q.ownerId)]) else on
  }

  function Acquire(w: World, q: Request, env: Env): World {
    if Refused(w, q) then w
    else if Repeats(w, q) then Enabled(w, q, env)
    else if !ReachesPersist(w, q, env) then AfterFence(w, q, env)
    else
      var p := AfterPersist(w, q, env);
      if env.persist == Saved then Enabled(p, q, env) else p
  }

  // ----- Runs ----------------------------------------------------------------------------------

  datatype Event =
    | Serve(request: Request, env: Env)
    /** The process dies while serving: after fencing, after saving, or just before it would have replied. */
    | DieServing(request: Request, env: Env, effects: nat)
    | Die
    | Start(interfaces: map<U64, string>)

  /** The daemon refuses to start when the stored owner's interface is not the configured one. */
  predicate Starts(disk: Option<FenceState>, interfaces: map<U64, string>) {
    disk.Some? ==> disk.value.ownerId in interfaces && interfaces[disk.value.ownerId] == disk.value.ownerInterface
  }

  function Stopped(w: World): World { w.(running := false, memory := None) }

  /** The world after only the first `effects` effects of a request, its reply never sent. */
  function Partly(w: World, q: Request, env: Env, effects: nat): World {
    if effects == 0 || Refused(w, q) then w
    else if Repeats(w, q) then Enabled(w, q, env).(grants := w.grants)
    else if effects == 1 || !ReachesPersist(w, q, env) then AfterFence(w, q, env)
    else if effects == 2 || env.persist != Saved then AfterPersist(w, q, env)
    else Enabled(AfterPersist(w, q, env), q, env).(grants := w.grants)
  }

  function Step(w: World, e: Event): World {
    match e
    case Serve(q, env) => if w.running then Acquire(w, q, env) else w
    case DieServing(q, env, effects) => if w.running then Stopped(Partly(w, q, env, effects)) else w
    case Die => Stopped(w)
    case Start(interfaces) =>
      if w.running || !Starts(w.disk, interfaces) then w
      else w.(running := true, interfaces := interfaces, memory := w.disk)
  }

  /** Saving is all or nothing as far as this event is concerned. */
  ghost predicate Atomic(e: Event) {
    (e.Serve? || e.DieServing?) ==> e.env.persist != SavedThenFailed
  }

  /** Serving the request replaces the record and yet reports that saving failed. */
  predicate Torn(w: World, q: Request, env: Env) {
    w.running && ReachesPersist(w, q, env) && env.persist == SavedThenFailed
  }

  /** The new record names the link that memory already has for the owner, or memory has no owner at all. */
  predicate SameLink(w: World, q: Request)
    requires q.ownerId in w.interfaces
  {
    w.memory.Some? ==> w.memory.value.ownerInterface == w.interfaces[q.ownerId]
  }

  /** A save may be torn only if it keeps the owner's link; one cut by the process dying may be torn in any case. */
  ghost predicate Mild(w: World, e: Event) {
    e.Serve? && Torn(w, e.request, e.env) ==> SameLink(w, e.request)
  }

  function OwnerLink(disk: Option<FenceState>): set<string> {
    if disk.Some? then {disk.value.ownerInterface} else {}
  }

  ghost predicate Orderly(grants: seq<Grant>) {
    forall i, j :: 0 <= i < j < |grants| ==>
      && grants[i].term <= grants[j].term
      && (grants[i].term == grants[j].term ==> grants[i].ownerId == grants[j].ownerId)
      && SameCluster(grants[i].clusterId, grants[j].clusterId)
  }

  /** Every grant so far was for this record or an earlier term of the same cluster. */
  ghost predicate Covers(disk: Option<FenceState>, grants: seq<Grant>) {
    forall g :: g in grants ==>
      && disk.Some? && g.term <= disk.value.term
      && (g.term == disk.value.term ==> g.ownerId == disk.value.ownerId)
      && SameCluster(g.clusterId, disk.value.clusterId)
  }

  /** Memory may lag behind the disk, but only by terms never granted, and both name the same link. */
  ghost predicate Lags(memory: Option<FenceState>, disk: Option<FenceState>) {
    memory.Some? ==>
      && disk.Some? && memory.value.ownerInterface == disk.value.ownerInterface
      && memory.value.term <= disk.value.term
      && (memory.value.term == disk.value.term ==> memory.value.ownerId == disk.value.ownerId)
      && SameCluster(memory.value.clusterId, disk.value.clusterId)
  }

  /** What a running daemon goes by. */
  ghost predicate Informed(w: World) {
    && Lags(w.memory, w.disk) && Covers(w.memory, w.grants) && Starts(w.memory, w.interfaces)
    && (w.memory.None? ==> w.up == {})
  }

  /** Only the stored owner's link may be up, and what a running daemon remembers leads to no other. */
  ghost predicate Safe(w: World) {
    && w.up <= OwnerLink(w.disk)
    && Covers(w.disk, w.grants) && Orderly(w.grants)
    && (w.running ==> Informed(w))
  }

  lemma AfterFenceSafe(w: World, q: Request, env: Env)
    requires Safe(w) && w.running
    ensures Safe(AfterFence(w, q, env))
    ensures ReachesPersist(w, q, env) && MustFence(w, q) ==> AfterFence(w, q, env).up == {}
  {
    hide Orderly, SameCluster;
  }

  lemma AfterPersistSafe(w: World, q: Request, env: Env)
    requires Safe(w) && w.running && ReachesPersist(w, q, env)
    ensures Safe(Stopped(AfterPersist(w, q, env)))
    ensures Safe(AfterPersist(w, q, env)) <==> env.persist != SavedThenFailed || SameLink(w, q)
  {
    hide Orderly;
    AfterFenceSafe(w, q, env);
    LaterTerms(w, q);
  }

  /** A new record reaches the disk only under a term beyond all grants. */
  lemma LaterTerms(w: World, q: Request)
    requires Safe(w) && w.running && !Refused(w, q) && !Repeats(w, q)
    ensures Covers(Some(NextState(w, q)), w.grants)
    ensures Lags(w.memory, Some(NextState(w, q))) <==> SameLink(w, q)
    ensures !MustFence(w, q) ==> SameLink(w, q)
  {
    hide Orderly;
  }

  lemma EnabledSafe(w: World, q: Request, env: Env)
    requires Safe(w) && w.running && w.memory.Some? && q.ownerId in w.interfaces
    requires w.memory.value.term == q.term && w.memory.value.ownerId == q.ownerId
    requires SameCluster(w.memory.value.clusterId, q.clusterId)
    ensures Safe(Enabled(w, q, env)) && Safe(Enabled(w, q, env).(grants := w.grants))
  {
    hide Orderly, LowerAll;
    GrantOrderly(w.memory.value, w.grants, Grant(q.clusterId, q.term, q.ownerId));
  }

  lemma GrantOrderly(s: FenceState, grants: seq<Grant>, g: Grant)
    requires Covers(Some(s), grants) && Orderly(grants)
    requires g.term == s.term && g.ownerId == s.ownerId && SameCluster(s.clusterId, g.clusterId)
    ensures Orderly(grants + [g])
  {
    var all := grants + [g];
    forall i, j | 0 <= i < j < |all|
      ensures all[i].term <= all[j].term
        && (all[i].term == all[j].term ==> all[i].ownerId == all[j].ownerId)
        && SameCluster(all[i].clusterId, all[j].clusterId)
    {
      assert grants[i] in grants;
    }
  }

  /** Serving a request keeps everything safe exactly when it is not a torn save that changes the link. */
  lemma AcquireSafe(w: World, q: Request, env: Env)
    requires Safe(w) && w.running
    ensures Safe(Acquire(w, q, env)) <==> Mild(w, Serve(q, env))
  {
    hide Safe, Enabled, AfterPersist, AfterFence, SameLink;
    if !Refused(w, q) {
      if Repeats(w, q) {
        EnabledSafe(w, q, env);
      } else if !ReachesPersist(w, q, env) {
        AfterFenceSafe(w, q, env);
      } else {
        AfterPersistSafe(w, q, env);
        if env.persist == Saved { SavedEnables(w, q, env); }
      }
    }
  }

  lemma SavedEnables(w: World, q: Request, env: Env)
    requires Safe(w) && w.running && ReachesPersist(w, q, env) && env.persist == Saved
    ensures var p := AfterPersist(w, q, env);
      && Safe(Enabled(p, q, env)) && Safe(Enabled(p, q, env).(grants := p.grants))
      && p.grants == w.grants && p.interfaces == w.interfaces
  {
    hide Safe, Enabled;
    AfterPersistSafe(w, q, env);
    EnabledSafe(AfterPersist(w, q, env), q, env);
  }

  lemma StepSafe(w: World, e: Event)
    requires Safe(w) && Mild(w, e)
    ensures Safe(Step(w, e))
  {
    hide Acquire, Partly, Torn, SameLink;
    match e
    case Serve(q, env) => if w.running { AcquireSafe(w, q, env); }
    case DieServing(q, env, effects) => if w.running { PartlySafe(w, q, env, effects); }
    case _ =>
  }

  lemma StoppedSafe(w: World)
    requires Safe(w)
    ensures Safe(Stopped(w))
  {
  }

  lemma PartlySafe(w: World, q: Request, env: Env, effects: nat)
    requires Safe(w) && w.running
    ensures Safe(Stopped(Partly(w, q, env, effects)))
  {
    hide Safe, Enabled, AfterPersist, AfterFence, Stopped;
    StoppedSafe(w);
    if effects > 0 && !Refused(w, q) {
      if Repeats(w, q) {
        EnabledSafe(w, q, env);
        StoppedSafe(Enabled(w, q, env).(grants := w.grants));
      } else {
        AfterFenceSafe(w, q, env);
        StoppedSafe(AfterFence(w, q, env));
        if ReachesPersist(w, q, env) {
          AfterPersistSafe(w, q, env);
          if env.persist == Saved {
            SavedEnables(w, q, env);
            StoppedSafe(Enabled(AfterPersist(w, q, env), q, env).(grants := w.grants));
          }
        }
      }
    }
  }

  function Run(w: World, events: seq<Event>): World {
    if events == [] then w else Step(Run(w, events[..|events| - 1]), events[|events| - 1])
  }

  /** Nothing stored, every managed link down, nothing granted yet. */
  const INITIAL := World(map[], false, None, None, {}, [])

  /** No save along the run is torn while it changes the link. */
  ghost predicate MildRun(w: World, events: seq<Event>) {
    forall i :: 0 <= i < |events| ==> Mild(Run(w, events[..i]), events[i])
  }

  lemma {:induction false} RunSafe(w: World, events: seq<Event>)
    requires Safe(w) && MildRun(w, events)
    ensures Safe(Run(w, events))
  {
    hide Safe, Mild, Step;
    if events != [] {
      var n := |events| - 1;
      var front := events[..n];
      forall i | 0 <= i < n ensures Mild(Run(w, front[..i]), front[i]) {
        assert front[..i] == events[..i];
      }
      RunSafe(w, front);
      StepSafe(Run(w, front), events[n]);
    }
  }

  /**
   * Mutual exclusion over every run with crashes, link failures and torn saves, as long as no torn save that is
   * answered changes the link: at most one link is up and it is the stored owner's; no term is ever granted to two
   * owners, and granted terms never go back.
   */
  lemma MutualExclusion(events: seq<Event>)
    requires MildRun(INITIAL, events)
    ensures var w := Run(INITIAL, events);
      && |w.up| <= 1 && w.up <= OwnerLink(w.disk)
      && Orderly(w.grants)
  {
    RunSafe(INITIAL, events);
    var w := Run(INITIAL, events);
    SubsetCardinality(w.up, OwnerLink(w.disk));
  }

  /** All-or-nothing saves are mild. */
  lemma AtomicIsMild(w: World, events: seq<Event>)
    requires forall e :: e in events ==> Atomic(e)
    ensures MildRun(w, events)
  {
    forall i | 0 <= i < |events| ensures Mild(Run(w, events[..i]), events[i]) { assert Atomic(events[i]); }
  }

  /**
   * The condition is exact. After a torn save, some continuation in which every save is all or nothing has two
   * links up if and only if memory still holds an owner on another link than the new one.
   */
  lemma TornSaveExactly(w: World, q: Request, env: Env)
    requires Safe(w) && Torn(w, q, env)
    ensures (exists events :: |Run(Acquire(w, q, env), events).up| >= 2 && forall e :: e in events ==> Atomic(e))
      <==> !SameLink(w, q)
  {
    hide Safe, SameLink, Acquire, Orderly;
    if SameLink(w, q) {
      AcquireSafe(w, q, env);
      forall events: seq<Event> | forall e :: e in events ==> Atomic(e)
        ensures |Run(Acquire(w, q, env), events).up| <= 1
      {
        AtomicIsMild(Acquire(w, q, env), events);
        RunSafe(Acquire(w, q, env), events);
        OneLink(Run(Acquire(w, q, env), events));
      }
    } else {
      var events := TwoLinksAfter(w, q, env);
    }
  }

  lemma OneLink(w: World)
    requires Safe(w)
    ensures |w.up| <= 1
  {
    SubsetCardinality(w.up, OwnerLink(w.disk));
  }

  /** The remembered owner is granted again, the daemon restarts from the disk, and the new owner asks again. */
  lemma TwoLinksAfter(w: World, q: Request, env: Env) returns (events: seq<Event>)
    requires Safe(w) && Torn(w, q, env) && !SameLink(w, q)
    ensures |Run(Acquire(w, q, env), events).up| >= 2 && forall e :: e in events ==> Atomic(e)
  {
    assert w.memory.Some?;
    hide Step, Safe, Torn, SameLink, Acquire;
    var m := w.memory.value;
    var fine := Env(Took, Saved, Took);
    var again := Request(m.clusterId, m.term, m.ownerId);
    events := [Serve(again, fine), Die, Start(w.interfaces), Serve(q, fine)];
    var t := Acquire(w, q, env);
    RunOfFour(t, events);
    AfterTorn(w, q, env, m);
    GrantAgain(t, m, fine);
    var a := Step(t, events[0]);
    var b := Step(Step(a, events[1]), events[2]);
    Reread(a, t.disk.value, w.interfaces);
    GrantAgain(b, t.disk.value, fine);
    var c := Step(b, events[3]);
    assert {m.ownerInterface, w.interfaces[q.ownerId]} <= c.up;
    SubsetCardinality({m.ownerInterface, w.interfaces[q.ownerId]}, c.up);
  }

  /** What a torn save that changes the link leaves behind. */
  lemma AfterTorn(w: World, q: Request, env: Env, m: FenceState)
    requires Safe(w) && Torn(w, q, env) && !SameLink(w, q) && m == w.memory.value
    ensures var t := Acquire(w, q, env);
      && t.running && t.memory == Some(m) && t.interfaces == w.interfaces
      && m.ownerId in w.interfaces && w.interfaces[m.ownerId] == m.ownerInterface
      && q.ownerId in w.interfaces && w.interfaces[q.ownerId] != m.ownerInterface
      && t.disk == Some(FenceState(q.clusterId, q.term, q.ownerId, w.interfaces[q.ownerId]))
  {
    hide Orderly, Covers;
  }

  /** Whoever memory names is granted the same term again, and its link goes up beside whatever is up. */
  lemma GrantAgain(t: World, m: FenceState, fine: Env)
    requires t.running && t.memory == Some(m) && fine == Env(Took, Saved, Took)
    requires m.ownerId in t.interfaces && t.interfaces[m.ownerId] == m.ownerInterface
    ensures var a := Step(t, Serve(Request(m.clusterId, m.term, m.ownerId), fine));
      && a.up == t.up + {m.ownerInterface}
      && a.disk == t.disk && a.memory == t.memory && a.running && a.interfaces == t.interfaces
  {
  }

  lemma Reread(a: World, disk: FenceState, interfaces: map<U64, string>)
    requires a.disk == Some(disk) && disk.ownerId in interfaces && interfaces[disk.ownerId] == disk.ownerInterface
    ensures var b := Step(Step(a, Die), Start(interfaces));
      b.running && b.memory == Some(disk) && b.up == a.up && b.interfaces == interfaces && b.disk == a.disk
  {
  }

  lemma RunOfFour(w: World, events: seq<Event>)
    requires |events| == 4
    ensures Run(w, events) == Step(Step(Step(Step(w, events[0]), events[1]), events[2]), events[3])
  {
    hide Step;
    forall k: nat | k < 4 ensures Run(w, events[..k + 1]) == Step(Run(w, events[..k]), events[k]) {
      assert events[..k + 1][..k] == events[..k];
    }
    assert events[..4] == events;
    assert Run(w, events[..0]) == w;
  }

  /** A run in which one save fails after replacing the record ends with two links up. */
  lemma HalfSavedRecordBreaksExclusion() returns (events: seq<Event>)
    ensures |Run(INITIAL, events).up| == 2
    ensures exists e :: e in events && !Atomic(e)
  {
    var fine := Env(Took, Saved, Took);
    var torn := Env(Took, SavedThenFailed, Took);
    events := [Start(LINKS), Serve(Request("c", 1, 1), fine), Serve(Request("c", 2, 2), torn),
               Serve(Request("c", 1, 1), fine), Die, Start(LINKS), Serve(Request("c", 2, 2), fine)];
    RunUnfold(events);
    var one := FenceState("c", 1, 1, "a");
    var two := FenceState("c", 2, 2, "b");
    var g := Grant("c", 1, 1);
    var w1 := World(LINKS, true, None, None, {}, []);
    var w2 := World(LINKS, true, Some(one), Some(one), {"a"}, [g]);
    var w3 := World(LINKS, true, Some(one), Some(two), {}, [g]);
    FirstLinks(w1, w2, w3, one, two, events);
    hide Step, Run;
    GrantAgain(w3, one, fine);
    var w4 := Step(w3, events[3]);
    Reread(w4, two, LINKS);
    GrantAgain(Step(Step(w4, events[4]), events[5]), two, fine);
    assert {} + {"a"} + {"b"} == {"a", "b"} && "a" != "b";
    assert events[2] in events && !Atomic(events[2]);
  }

  lemma FirstLinks(w1: World, w2: World, w3: World, one: FenceState, two: FenceState, events: seq<Event>)
    requires one == FenceState("c", 1, 1, "a") && two == FenceState("c", 2, 2, "b")
    requires w1 == World(LINKS, true, None, None, {}, [])
    requires w2 == World(LINKS, true, Some(one), Some(one), {"a"}, [Grant("c", 1, 1)])
    requires w3 == World(LINKS, true, Some(one), Some(two), {}, [Grant("c", 1, 1)])
    requires |events| == 7 && events[0] == Start(LINKS)
    requires events[1] == Serve(Request("c", 1, 1), Env(Took, Saved, Took))
    requires events[2] == Serve(Request("c", 2, 2), Env(Took, SavedThenFailed, Took))
    ensures Step(INITIAL, events[0]) == w1 && Step(w1, events[1]) == w2 && Step(w2, events[2]) == w3
  {
    assert {"a"} - {"a"} == {};
  }

  const LINKS: map<U64, string> := map[1 := "a", 2 := "b"]

  lemma RunUnfold(events: seq<Event>)
    requires |events| == 7
    ensures Run(INITIAL, events) == Step(Step(Step(Step(Step(Step(Step(INITIAL,
      events[0]), events[1]), events[2]), events[3]), events[4]), events[5]), events[6])
  {
    forall k: nat | k < 7 ensures Run(INITIAL, events[..k + 1]) == Step(Run(INITIAL, events[..k]), events[k]) {
      assert events[..k + 1][..k] == events[..k];
    }
    assert events[..7] == events;
    assert Run(INITIAL, events[..0]) == INITIAL;
  }
}

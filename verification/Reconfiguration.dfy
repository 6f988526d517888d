/** Runs of configuration changes: what every reachable configuration keeps, and why quorums always meet. */
module Reconfiguration {
  import opened Common
  import opened Quorum
  import opened Configuration
  import opened Tracker
  import opened ConfChanger
  import Progress

  datatype Transition = Auto | Implicit | Explicit

  /** A committed `ConfChangeV2`. */
  datatype Request = Request(transition: Transition, changes: seq<Change>)

  /** What a request comes to: leaving a joint phase, entering one, or a simple change. */
  function Outcome(c: Conf, q: Request): Result<Conf, ConfError> {
    if q.transition == Auto && q.changes == [] then LeaveJointOutcome(c)
    else if q.transition != Auto || |q.changes| > 1 then EnterJointOutcome(c, q.transition != Explicit, q.changes)
    else SimpleOutcome(c, q.changes)
  }

  /** A refused request leaves the configuration as it is. */
  function Step(c: Conf, q: Request): Conf {
    match Outcome(c, q)
    case Ok(next) => next
    case Err(_) => c
  }

  /** Strong, with someone to ask, and without the reserved id zero. */
  ghost predicate Healthy(c: Conf) {
    c.Strong() && c.incoming != {} && 0 !in c.Ids()
  }

  // ----- What a request comes to, id by id -----------------------------------------------------

  /** The last change of `id` that is not an update asks for `t`; id zero is never asked for anything. */
  ghost predicate Asked(changes: seq<Change>, id: U64, t: ChangeType) {
    id != 0 && exists i :: Decisive(changes, id, i) && changes[i].changeType == t
  }

  ghost predicate Unasked(changes: seq<Change>, id: U64) {
    id == 0 || forall i :: !Decisive(changes, id, i)
  }

  /** Who votes once the changes are made, and who learns or is to learn. */
  ghost predicate Votes(c: Conf, changes: seq<Change>, id: U64) {
    Asked(changes, id, AddNode) || (id in c.incoming && Unasked(changes, id))
  }

  ghost predicate Learns(c: Conf, changes: seq<Change>, id: U64) {
    Asked(changes, id, AddLearnerNode) || (id in c.learners + c.learnersNext && Unasked(changes, id))
  }

  /** Two different nodes start or stop voting. */
  ghost predicate TwoMove(c: Conf, changes: seq<Change>) {
    exists x, y :: x != y && Moves(c, changes, x) && Moves(c, changes, y)
  }

  ghost predicate Moves(c: Conf, changes: seq<Change>, id: U64) { Votes(c, changes, id) != (id in c.incoming) }

  ghost predicate NobodyVotes(c: Conf, changes: seq<Change>) { forall id :: !Votes(c, changes, id) }

  predicate Leaves(q: Request) { q.transition == Auto && q.changes == [] }

  /** Asked to go through a joint phase, or to change more than one node at a time. */
  predicate Enters(q: Request) { q.transition != Auto || |q.changes| > 1 }

  /** The answer to a request: refused for exactly these reasons, otherwise the configuration it must lead to. */
  ghost predicate Answers(c: Conf, q: Request, r: Result<Conf, ConfError>) {
    match r
    case Ok(d) =>
      && (if Leaves(q) then c.Joint() else !c.Joint())
      && (forall id :: id in d.incoming <==> Votes(c, q.changes, id))
      && (forall id :: id in d.learners + d.learnersNext <==> Learns(c, q.changes, id))
      && d.Strong() && d.outgoing == (if Enters(q) then c.incoming else {})
      && (d.autoLeave <==> Enters(q) && q.transition != Explicit)
      && (Leaves(q) || !NobodyVotes(c, q.changes))
      && (Enters(q) ==> c.incoming != {})
      && (!Enters(q) ==> !TwoMove(c, q.changes))
    case Err(LeaveNonJointConfig) => Leaves(q) && !c.Joint()
    case Err(ConfigAlreadyJoint) => Enters(q) && c.Joint()
    case Err(CannotApplySimpleInJointConfig) => !Leaves(q) && !Enters(q) && c.Joint()
    case Err(ZeroVoterConfigJoint) => Enters(q) && !c.Joint() && c.incoming == {}
    case Err(RemovedAllVoters) =>
      && !Leaves(q) && !c.Joint() && NobodyVotes(c, q.changes) && (Enters(q) ==> c.incoming != {})
    case Err(MultipleVotersChangedWithoutJoint) =>
      && !Leaves(q) && !Enters(q) && !c.Joint() && !NobodyVotes(c, q.changes) && TwoMove(c, q.changes)
    case Err(_) => false
  }

  lemma RolesAsked(c: Conf, changes: seq<Change>, id: U64)
    requires c.Strong()
    ensures var roles := AssignAll(RolesOf(c), changes);
      && (id in Those(roles, Voter) <==> Votes(c, changes, id))
      && (id in Those(roles, Learner) <==> Learns(c, changes, id))
  {
    hide AssignAll;
    LastChangeWins(RolesOf(c), changes, id);
    var roles := AssignAll(RolesOf(c), changes);
    assert RoleAt(RolesOf(c), id) == if id in c.incoming then Some(Voter)
      else if id in c.learners + c.learnersNext then Some(Learner) else None;
    assert id in Those(roles, Voter) <==> RoleAt(roles, id) == Some(Voter);
    assert id in Those(roles, Learner) <==> RoleAt(roles, id) == Some(Learner);
    if !Unasked(changes, id) {
      var i :| Decisive(changes, id, i);
      forall j | Decisive(changes, id, j) ensures j == i {}
    }
  }

  lemma TwoOfSet(s: set<U64>)
    ensures |s| > 1 <==> exists x, y :: x in s && y in s && x != y
  {
    if |s| > 1 {
      var x :| x in s;
      assert |s - {x}| == |s| - 1;
      var y :| y in s - {x};
    }
    if x, y :| x in s && y in s && x != y { SubsetCardinality({x, y}, s); }
  }

  lemma MovedVoters(c: Conf, changes: seq<Change>, voters: set<U64>)
    requires forall id :: id in voters <==> Votes(c, changes, id)
    ensures |SymmetricDifference(voters, c.incoming)| > 1 <==> TwoMove(c, changes)
    ensures voters == {} <==> NobodyVotes(c, changes)
  {
    hide Votes;
    var moved := SymmetricDifference(voters, c.incoming);
    forall id ensures id in moved <==> Moves(c, changes, id) {}
    TwoOfSet(moved);
    if TwoMove(c, changes) {
      var x, y :| x != y && Moves(c, changes, x) && Moves(c, changes, y);
      assert x in moved && y in moved;
    }
    if |moved| > 1 {
      var x, y :| x in moved && y in moved && x != y;
      assert Moves(c, changes, x) && Moves(c, changes, y);
    }
    if v :| v in voters { assert Votes(c, changes, v); }
  }

  /** What the three paths compute answers the request. */
  lemma OutcomeAnswers(c: Conf, q: Request)
    requires c.Strong()
    ensures Answers(c, q, Outcome(c, q))
  {
    hide AssignAll, RolesOf, Votes, Learns, NobodyVotes, TwoMove, SymmetricDifference;
    var roles := AssignAll(RolesOf(c), q.changes);
    var voters, learners := Those(roles, Voter), Those(roles, Learner);
    forall id
      ensures id in voters <==> Votes(c, q.changes, id)
      ensures id in learners <==> Learns(c, q.changes, id)
    {
      RolesAsked(c, q.changes, id);
    }
    MovedVoters(c, q.changes, voters);
    RolesOfLayout(roles, {}, false);
    RolesOfLayout(roles, c.incoming, q.transition != Explicit);
    hide Those;
    assert learners - c.incoming + learners * c.incoming == learners;
    if Leaves(q) { UnchangedVoters(c, q.changes); }
  }

  lemma UnchangedVoters(c: Conf, changes: seq<Change>)
    requires changes == []
    ensures AssignAll(RolesOf(c), changes) == RolesOf(c) && !TwoMove(c, changes)
  {
  }

  lemma AnswerJoins(c: Conf, q: Request, r: Result<Conf, ConfError>)
    requires Answers(c, q, r)
    ensures r.Ok? && !c.Joint() ==> (r.value.Joint() <==> q.transition != Auto || |q.changes| > 1)
    ensures r.Ok? && !c.Joint() && r.value.Joint() ==>
      r.value.outgoing == c.incoming && (r.value.autoLeave <==> q.transition != Explicit)
  {
  }

  /** `ConfChangeV2` applied to a live tracker: propose, then install, or refuse and change nothing. */
  method ApplyConfChange(tracker: ProgressTracker, q: Request, lastIndex: U64) returns (r: Result<Conf, ConfError>)
    requires tracker.Valid()
    modifies tracker`progress, tracker`peerIds, tracker`conf
    ensures tracker.Valid() && r == Outcome(old(tracker.conf), q)
    ensures tracker.conf == Step(old(tracker.conf), q) && Answers(old(tracker.conf), q, r)
    ensures r.Ok? ==> tracker.conf == r.value
    ensures r.Ok? && !old(tracker.conf).Joint() ==>
      (tracker.conf.Joint() <==> q.transition != Auto || |q.changes| > 1)
    ensures r.Ok? && !old(tracker.conf).Joint() && tracker.conf.Joint() ==>
      && tracker.conf.outgoing == old(tracker.conf).incoming
      && (tracker.conf.autoLeave <==> q.transition != Explicit)
    ensures r.Err? ==> tracker.progress == old(tracker.progress) && tracker.peerIds == old(tracker.peerIds)
    ensures r.Err? ==> r.error !in {ConfChangeError, LearnersNextMustBeEmpty, AutoLeaveMustBeFalse}
    ensures ProgressKept(
      old(tracker.progress), tracker.progress, q.changes, NewProgress(lastIndex, tracker.maxInflight))
  {
    hide LeaveJointOutcome, EnterJointOutcome, SimpleOutcome, ProgressKept, RemovesOnlyAsked, Proper, StrictlySorted;
    OutcomeAnswers(tracker.conf, q);
    AnswerJoins(tracker.conf, q, Outcome(tracker.conf, q));
    hide Answers;
    OutcomeErrors(tracker.conf, q);
    UnchangedKept(tracker.progress, q.changes, NewProgress(lastIndex, tracker.maxInflight));
    var proposal: ConfChanger.Outcome;
    if q.transition == Auto && q.changes == [] {
      proposal := LeaveJoint(tracker);
      if proposal.Ok? { RemovalsKeep(tracker, proposal.value.changes, lastIndex); }
    } else if q.transition != Auto || |q.changes| > 1 {
      proposal := EnterJoint(tracker, q.transition != Explicit, q.changes);
      if proposal.Ok? { AskedRemovalsKeep(tracker, proposal.value.changes, q.changes, lastIndex); }
    } else {
      proposal := Simple(tracker, q.changes);
      if proposal.Ok? { AskedRemovalsKeep(tracker, proposal.value.changes, q.changes, lastIndex); }
    }
    if proposal.Err? { return Err(proposal.error); }
    OutcomeHealthy(tracker.conf, q);
    tracker.ApplyConf(proposal.value.conf, proposal.value.changes, lastIndex);
    return Ok(proposal.value.conf);
  }

  /** Newcomers start fresh; a member keeps its progress, or starts afresh if its removal was among the changes. */
  ghost predicate ProgressKept(before: ProgressMap, after: ProgressMap, ccs: seq<Change>, fresh_: ProgressView) {
    forall id :: id in after ==>
      if id !in before then after[id] == fresh_
      else after[id] == before[id] || (after[id] == fresh_ && Change(RemoveNode, id) in ccs)
  }

  lemma UnchangedKept(progress: ProgressMap, ccs: seq<Change>, fresh_: ProgressView)
    ensures ProgressKept(progress, progress, ccs, fresh_)
  {
  }

  /** A refusal blames the request, never the state it found. */
  lemma OutcomeErrors(c: Conf, q: Request)
    ensures Outcome(c, q).Err? ==>
      Outcome(c, q).error !in {ConfChangeError, LearnersNextMustBeEmpty, AutoLeaveMustBeFalse}
  {
  }

  /** A newcomer is probed from the last index with nothing matched, and right away counts as heard from. */
  lemma NewcomerStarts(
      before: ProgressMap, after: ProgressMap, ccs: seq<Change>, lastIndex: U64, maxInflight: nat, id: U64, self: U64)
    requires ProgressKept(before, after, ccs, NewProgress(lastIndex, maxInflight)) && id in after && id !in before
    ensures id in HeardFrom(after, after.Keys, self)
    ensures after[id].state == Progress.Probe && !after[id].paused && after[id].recentActive
    ensures after[id].matched == 0 && after[id].nextIdx == lastIndex
    ensures after[id].inflights.queue == [] && after[id].inflights.capacity == maxInflight
  {
  }

  lemma AskedRemovalsKeep(tracker: ProgressTracker, changes: seq<MapChange>, ccs: seq<Change>, lastIndex: U64)
    requires Proper(tracker.progress.Keys, changes) && RemovesOnlyAsked(changes, ccs)
    ensures var fresh_ := NewProgress(lastIndex, tracker.maxInflight);
      var after := ReplayProgress(tracker.progress, changes, fresh_);
      after.Keys == Replay(tracker.progress.Keys, changes) && ProgressKept(tracker.progress, after, ccs, fresh_)
  {
    var fresh_ := NewProgress(lastIndex, tracker.maxInflight);
    ReplayKeys(tracker.progress, changes, fresh_);
    var after := ReplayProgress(tracker.progress, changes, fresh_);
    forall id | id in after
      ensures if id !in tracker.progress then after[id] == fresh_
        else after[id] == tracker.progress[id] || (after[id] == fresh_ && Change(RemoveNode, id) in ccs)
    {
      KeptOrFresh(tracker.progress, changes, fresh_, id);
      ReplayKeeps(tracker.progress, changes, fresh_, id);
    }
  }

  lemma RemovalsKeep(tracker: ProgressTracker, changes: seq<MapChange>, lastIndex: U64)
    requires Proper(tracker.progress.Keys, changes) && forall c :: c in changes ==> c.kind == Remove
    ensures var fresh_ := NewProgress(lastIndex, tracker.maxInflight);
      var after := ReplayProgress(tracker.progress, changes, fresh_);
      after.Keys == Replay(tracker.progress.Keys, changes) && ProgressKept(tracker.progress, after, [], fresh_)
  {
    var fresh_ := NewProgress(lastIndex, tracker.maxInflight);
    ReplayKeys(tracker.progress, changes, fresh_);
    forall id | id in Replay(tracker.progress.Keys, changes)
      ensures id in tracker.progress && ReplayProgress(tracker.progress, changes, fresh_)[id] == tracker.progress[id]
    {
      OnlyRemovals(tracker.progress.Keys, changes, id);
      KeptOrFresh(tracker.progress, changes, fresh_, id);
    }
  }

  lemma {:induction false} OnlyRemovals(keys: set<U64>, changes: seq<MapChange>, id: U64)
    requires forall c :: c in changes ==> c.kind == Remove
    requires id in Replay(keys, changes)
    ensures id in keys && MapChange(id, Remove) !in changes
  {
    if changes != [] {
      var n := |changes| - 1;
      assert changes == changes[..n] + [changes[n]];
      OnlyRemovals(keys, changes[..n], id);
    }
  }

  /** After proper edits a newcomer is fresh, and a member that was never removed keeps its progress. */
  lemma {:induction false} KeptOrFresh(progress: ProgressMap, changes: seq<MapChange>, fresh_: ProgressView, id: U64)
    requires Proper(progress.Keys, changes)
    ensures ReplayProgress(progress, changes, fresh_).Keys == Replay(progress.Keys, changes)
    ensures id in progress && MapChange(id, Remove) !in changes ==>
      id in Replay(progress.Keys, changes) && ReplayProgress(progress, changes, fresh_)[id] == progress[id]
    ensures id !in progress && id in Replay(progress.Keys, changes) ==>
      ReplayProgress(progress, changes, fresh_)[id] == fresh_
  {
    if changes != [] {
      var n := |changes| - 1;
      var front, last := changes[..n], changes[n];
      assert changes == front + [last];
      assert Proper(progress.Keys, front) by {
        forall i | 0 <= i < n ensures front[i].kind == Add <==> front[i].id !in Replay(progress.Keys, front[..i]) {
          assert front[..i] == changes[..i];
        }
      }
      KeptOrFresh(progress, front, fresh_, id);
      assert last == changes[n] && (last.kind == Add <==> last.id !in Replay(progress.Keys, changes[..n]));
    }
  }

  // ----- One step ------------------------------------------------------------------------------

  lemma AssignAllNonZero(roles: Roles, changes: seq<Change>)
    requires 0 !in roles
    ensures 0 !in AssignAll(roles, changes)
  {
    LastChangeWins(roles, changes, 0);
  }

  /** Whatever is asked of a strong configuration, the result is strong; voters and id zero are guarded too. */
  lemma OutcomeHealthy(c: Conf, q: Request)
    requires c.Strong()
    ensures Step(c, q).Strong()
    ensures c.incoming != {} ==> Step(c, q).incoming != {}
    ensures 0 !in c.Ids() ==> 0 !in Step(c, q).Ids()
  {
    hide SimpleOutcome, EnterJointOutcome, LeaveJointOutcome;
    LeaveHealthy(c);
    SimpleHealthy(c, q.changes);
    EnterHealthy(c, q.transition != Explicit, q.changes);
  }

  ghost predicate AsHealthy(c: Conf, next: Conf) {
    && next.Strong() && (c.incoming != {} ==> next.incoming != {})
    && (0 !in c.Ids() ==> 0 !in next.Ids())
  }

  lemma LeaveHealthy(c: Conf)
    requires c.Strong()
    ensures LeaveJointOutcome(c).Ok? ==> AsHealthy(c, LeaveJointOutcome(c).value)
  {
    LayoutOfRoles(c);
    RolesOfLayout(RolesOf(c), {}, false);
  }

  /** Whoever a change list leaves in place, with the old voters still consulted or not. */
  lemma AssignedHealthy(c: Conf, changes: seq<Change>, outgoing: set<U64>, autoLeave: bool)
    requires c.Strong() && outgoing <= c.incoming && (outgoing != {} || !autoLeave)
    ensures var next := Layout(AssignAll(RolesOf(c), changes), outgoing, autoLeave);
      next.incoming != {} ==> AsHealthy(c, next)
  {
    hide AssignAll;
    var roles := AssignAll(RolesOf(c), changes);
    if 0 !in c.Ids() { AssignAllNonZero(RolesOf(c), changes); }
    RolesOfLayout(roles, outgoing, autoLeave);
  }

  lemma SimpleHealthy(c: Conf, changes: seq<Change>)
    requires c.Strong()
    ensures SimpleOutcome(c, changes).Ok? ==> AsHealthy(c, SimpleOutcome(c, changes).value)
  {
    hide AssignAll, RolesOf, Layout, AsHealthy;
    AssignedHealthy(c, changes, {}, false);
  }

  lemma EnterHealthy(c: Conf, autoLeave: bool, changes: seq<Change>)
    requires c.Strong()
    ensures EnterJointOutcome(c, autoLeave, changes).Ok? ==>
      AsHealthy(c, EnterJointOutcome(c, autoLeave, changes).value)
  {
    hide AssignAll, RolesOf, Layout, AsHealthy;
    if c.incoming != {} { AssignedHealthy(c, changes, c.incoming, autoLeave); }
  }

  /**
   * Leader election safety across a change: whoever wins under the old configuration and whoever
   * wins under the new one share a voter, who would have to vote twice.
   */
  lemma QuorumsMeet(c: Conf, q: Request, a: set<U64>, b: set<U64>) returns (v: U64)
    requires Healthy(c)
    requires Wins(c.incoming, c.outgoing, a)
    requires Wins(Step(c, q).incoming, Step(c, q).outgoing, b)
    ensures v in a && v in b
    ensures v in c.incoming + c.outgoing && v in Step(c, q).incoming + Step(c, q).outgoing
  {
    var d := Step(c, q);
    var w := NeighbouringHalf(c, q);
    v := HalvesOverlap(c.incoming, w, a, b);
  }

  /** Some half of the next configuration differs from the current voters in at most one id. */
  lemma NeighbouringHalf(c: Conf, q: Request) returns (w: set<U64>)
    requires Healthy(c)
    ensures w == Step(c, q).incoming || w == Step(c, q).outgoing
    ensures w != {} && |(c.incoming - w) + (w - c.incoming)| <= 1
  {
    var d := Step(c, q);
    if Outcome(c, q).Err? {
      w := d.incoming;
    } else if q.transition == Auto && q.changes == [] {
      LayoutOfRoles(c);
      w := d.incoming;
    } else if q.transition != Auto || |q.changes| > 1 {
      w := d.outgoing;
    } else {
      w := d.incoming;
      assert (c.incoming - w) + (w - c.incoming) == SymmetricDifference(w, c.incoming);
    }
  }

  // ----- Runs ----------------------------------------------------------------------------------

  /** `confs` is what a sequence of requests makes of a healthy configuration. */
  ghost predicate IsRun(confs: seq<Conf>, requests: seq<Request>) {
    && |confs| == |requests| + 1 && Healthy(confs[0])
    && forall i :: 0 <= i < |requests| ==> confs[i + 1] == Step(confs[i], requests[i])
  }

  lemma {:induction false} RunsAreHealthy(confs: seq<Conf>, requests: seq<Request>, i: nat)
    requires IsRun(confs, requests) && i <= |requests|
    ensures Healthy(confs[i])
  {
    if i > 0 {
      RunsAreHealthy(confs, requests, i - 1);
      OutcomeHealthy(confs[i - 1], requests[i - 1]);
    }
  }

  /** In every run, winners of the same configuration and of neighbouring ones always share a voter. */
  lemma RunQuorumsMeet(confs: seq<Conf>, requests: seq<Request>, i: nat, j: nat, a: set<U64>, b: set<U64>)
    returns (v: U64)
    requires IsRun(confs, requests) && i <= j <= i + 1 && j <= |requests|
    requires Wins(confs[i].incoming, confs[i].outgoing, a) && Wins(confs[j].incoming, confs[j].outgoing, b)
    ensures v in a && v in b
    ensures v in confs[i].incoming + confs[i].outgoing && v in confs[j].incoming + confs[j].outgoing
  {
    RunsAreHealthy(confs, requests, i);
    if j == i + 1 {
      v := QuorumsMeet(confs[i], requests[i], a, b);
    } else {
      v := HalvesOverlap(confs[i].incoming, confs[i].incoming, a, b);
    }
  }

  /**
   * What is committed stays known: the ackers of anything up to a commit index of one configuration
   * meet every set that can win an election in it or in the next one.
   */
  lemma CommittedIsSeenByWinners(
    confs: seq<Conf>, requests: seq<Request>, i: nat, j: nat, acks: AckMap, n: int, winners: set<U64>)
    returns (v: U64)
    requires IsRun(confs, requests) && i <= j <= i + 1 && j <= |requests|
    requires HalfAcked(confs[i].incoming, acks, n) && HalfAcked(confs[i].outgoing, acks, n)
    requires Wins(confs[j].incoming, confs[j].outgoing, winners)
    ensures v in winners && AckOf(acks, v).index >= n && v in confs[i].incoming + confs[i].outgoing
  {
    var voters := confs[i].incoming + confs[i].outgoing;
    AckersWin(confs[i].incoming, confs[i].outgoing, acks, n);
    v := RunQuorumsMeet(confs, requests, i, j, Ackers(voters, acks, n), winners);
  }

  // ----- The followers of a tracker ------------------------------------------------------------

  /** What can happen to the progress map of a tracker in service. */
  datatype TrackerEvent =
    | Handles(id: U64, event: Progress.Event)
    | Sweeps(self: U64)
    | Reconfigures(changes: seq<Change>, lastIndex: U64, maxInflight: nat)

  ghost predicate Leads(before: ProgressMap, e: TrackerEvent, after: ProgressMap) {
    match e
    case Handles(id, event) =>
      && id in before && Progress.Possible(before[id], event)
      && after == before[id := Progress.Handle(before[id], event)]
    case Sweeps(self) => after == map id | id in before :: before[id].(recentActive := id == self)
    case Reconfigures(changes, lastIndex, maxInflight) =>
      ProgressKept(before, after, changes, NewProgress(lastIndex, maxInflight))
  }

  ghost predicate FollowersSound(progress: ProgressMap) {
    forall id :: id in progress ==> progress[id].Sound()
  }

  /** A newcomer is sound if and only if the log it joins is not empty, as its own change makes sure. */
  lemma NewcomerSound(lastIndex: U64, maxInflight: nat)
    ensures NewProgress(lastIndex, maxInflight).Sound() <==> lastIndex > 0
  {
  }

  /** A configuration change leaves every follower sound unless someone new joins an empty log. */
  lemma ChangeKeepsSound(
      before: ProgressMap, after: ProgressMap, changes: seq<Change>, lastIndex: U64, maxInflight: nat)
    requires ProgressKept(before, after, changes, NewProgress(lastIndex, maxInflight)) && FollowersSound(before)
    ensures FollowersSound(after)
      <==> lastIndex > 0 || forall id :: id in after ==> id in before && after[id] == before[id]
  {
    hide NewProgress;
    NewcomerSound(lastIndex, maxInflight);
  }

  lemma LeadsKeepsSound(before: ProgressMap, e: TrackerEvent, after: ProgressMap)
    requires Leads(before, e, after) && FollowersSound(before)
    requires e.Reconfigures? ==> e.lastIndex > 0
    ensures FollowersSound(after)
  {
    hide Progress.Handle, Progress.Possible;
    match e
    case Handles(id, event) => Progress.HandleKeepsSound(before[id], event);
    case Sweeps(self) =>
    case Reconfigures(changes, lastIndex, maxInflight) =>
      ChangeKeepsSound(before, after, changes, lastIndex, maxInflight);
  }

  /** Every follower of every tracker a run can reach is sound, whoever joins and leaves meanwhile. */
  lemma {:induction false} FollowersAreSound(maps: seq<ProgressMap>, events: seq<TrackerEvent>, i: nat)
    requires |maps| == |events| + 1 && FollowersSound(maps[0]) && i <= |events|
    requires forall j :: 0 <= j < |events| ==> Leads(maps[j], events[j], maps[j + 1])
    requires forall j :: 0 <= j < |events| && events[j].Reconfigures? ==> events[j].lastIndex > 0
    ensures FollowersSound(maps[i])
  {
    hide Leads, FollowersSound;
    if i > 0 {
      FollowersAreSound(maps, events, i - 1);
      LeadsKeepsSound(maps[i - 1], events[i - 1], maps[i]);
    }
  }

  // ----- Joint phases are transparent ----------------------------------------------------------

  /** The configuration a change list asks for, with no intermediate phase. */
  function Direct(c: Conf, changes: seq<Change>): Conf { Layout(AssignAll(RolesOf(c), changes), {}, false) }

  /**
   * Going through a joint phase ends where a direct change would: the same voters, and as learners
   * everyone the joint configuration had as a learner or had waiting to become one.
   */
  lemma JointIsTransparent(c: Conf, autoLeave: bool, changes: seq<Change>)
    requires c.Strong()
    requires EnterJointOutcome(c, autoLeave, changes).Ok?
    ensures var joint := EnterJointOutcome(c, autoLeave, changes).value;
      && LeaveJointOutcome(joint) == Ok(Direct(c, changes))
      && Direct(c, changes) == Conf(joint.incoming, {}, joint.learners + joint.learnersNext, {}, false)
      && joint.outgoing == c.incoming
  {
    var roles := AssignAll(RolesOf(c), changes);
    RolesOfLayout(roles, c.incoming, autoLeave);
    var joint := Layout(roles, c.incoming, autoLeave);
    assert joint.learners + joint.learnersNext == Those(roles, Learner);
  }

  /** Whenever the simple path accepts a change list, both paths lead to the same configuration. */
  lemma SimpleAgreesWithJoint(c: Conf, autoLeave: bool, changes: seq<Change>)
    requires c.Strong() && c.incoming != {}
    requires SimpleOutcome(c, changes).Ok?
    ensures EnterJointOutcome(c, autoLeave, changes).Ok?
    ensures LeaveJointOutcome(EnterJointOutcome(c, autoLeave, changes).value) == SimpleOutcome(c, changes)
  {
    var roles := AssignAll(RolesOf(c), changes);
    assert Layout(roles, c.incoming, autoLeave).incoming == Layout(roles, {}, false).incoming;
    JointIsTransparent(c, autoLeave, changes);
  }

  /** In the configuration asked for, the last change of an id other than an update decides its place. */
  lemma DirectMembership(c: Conf, changes: seq<Change>, id: U64, i: nat)
    requires c.Strong() && id != 0 && Decisive(changes, id, i)
    ensures id in Direct(c, changes).incoming <==> changes[i].changeType == AddNode
    ensures id in Direct(c, changes).learners <==> changes[i].changeType == AddLearnerNode
  {
    LastChangeWins(RolesOf(c), changes, id);
    var roles := AssignAll(RolesOf(c), changes);
    assert RoleAt(roles, id) == RoleAsked(changes[i].changeType);
    assert Those(roles, Learner) - {} == Those(roles, Learner);
  }
}

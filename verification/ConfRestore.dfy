/** Rebuilding a tracker from the configuration state a snapshot carries. */
module ConfRestore {
  import opened Common
  import opened Sorting
  import opened Configuration
  import opened Tracker
  import opened ConfChanger

  /** The wire form of a configuration. */
  datatype ConfState = ConfState(
    voters: seq<U64>,
    learners: seq<U64>,
    votersOutgoing: seq<U64>,
    learnersNext: seq<U64>,
    autoLeave: bool)

  /** The configuration a state describes. */
  function ConfOf(cs: ConfState): Conf {
    Conf(SetOf(cs.voters), SetOf(cs.votersOutgoing), SetOf(cs.learners), SetOf(cs.learnersNext), cs.autoLeave)
  }

  ghost predicate Canonical(cs: ConfState) {
    StrictlySorted(cs.voters) && StrictlySorted(cs.learners)
    && StrictlySorted(cs.votersOutgoing) && StrictlySorted(cs.learnersNext)
  }

  method CollectSorted(s: set<U64>) returns (ids: seq<U64>)
    ensures StrictlySorted(ids) && SetOf(ids) == s
  {
    var a := CollectKeys(s);
    SortIds(a);
    ids := a[..];
  }

  method ToConfState(c: Conf) returns (cs: ConfState)
    ensures ConfOf(cs) == c && Canonical(cs)
  {
    var voters := CollectSorted(c.incoming);
    var learners := CollectSorted(c.learners);
    var votersOutgoing := CollectSorted(c.outgoing);
    var learnersNext := CollectSorted(c.learnersNext);
    cs := ConfState(voters, learners, votersOutgoing, learnersNext, c.autoLeave);
  }

  /** There is one canonical state per configuration. */
  lemma CanonicalUnique(cs: ConfState, ds: ConfState)
    requires Canonical(cs) && Canonical(ds) && ConfOf(cs) == ConfOf(ds)
    ensures cs == ds
  {
    SortedUnique(cs.voters, ds.voters);
    SortedUnique(cs.learners, ds.learners);
    SortedUnique(cs.votersOutgoing, ds.votersOutgoing);
    SortedUnique(cs.learnersNext, ds.learnersNext);
  }

  // ----- The change lists a state is turned into -----------------------------------------------

  function Ask(t: ChangeType, ids: seq<U64>): (r: seq<Change>)
    ensures |r| == |ids|
  {
    seq(|ids|, i requires 0 <= i < |ids| => Change(t, ids[i]))
  }

  function OutgoingChanges(cs: ConfState): seq<Change> { Ask(AddNode, cs.votersOutgoing) }

  function IncomingChanges(cs: ConfState): seq<Change> {
    Ask(RemoveNode, cs.votersOutgoing) + Ask(AddNode, cs.voters)
    + Ask(AddLearnerNode, cs.learners) + Ask(AddLearnerNode, cs.learnersNext)
  }

  method AppendAll(list: seq<Change>, t: ChangeType, ids: seq<U64>) returns (r: seq<Change>)
    ensures r == list + Ask(t, ids)
  {
    r := list;
    for i := 0 to |ids|
      invariant r == list + Ask(t, ids)[..i]
    {
      r := r + [Change(t, ids[i])];
    }
  }

  method ToConfChangeSingle(cs: ConfState) returns (outgoing: seq<Change>, incoming: seq<Change>)
    ensures outgoing == OutgoingChanges(cs) && incoming == IncomingChanges(cs)
  {
    outgoing := AppendAll([], AddNode, cs.votersOutgoing);
    incoming := AppendAll([], RemoveNode, cs.votersOutgoing);
    incoming := AppendAll(incoming, AddNode, cs.voters);
    incoming := AppendAll(incoming, AddLearnerNode, cs.learners);
    incoming := AppendAll(incoming, AddLearnerNode, cs.learnersNext);
  }

  /** Applying changes one at a time to nobody, refusing whenever no voter is left. */
  function OneByOne(changes: seq<Change>): Result<Roles, ConfError> {
    if changes == [] then Ok(map[]) else
    match OneByOne(changes[..|changes| - 1])
    case Err(e) => Err(e)
    case Ok(before) =>
      var roles := Assign(before, changes[|changes| - 1]);
      if Those(roles, Voter) == {} then Err(RemovedAllVoters) else Ok(roles)
  }

  /** A simple configuration change for each element, from the empty configuration. */
  function SimpleEach(changes: seq<Change>): Result<Conf, ConfError> {
    if changes == [] then Ok(EMPTY_CONF) else
    match SimpleEach(changes[..|changes| - 1])
    case Err(e) => Err(e)
    case Ok(c) => SimpleOutcome(c, [changes[|changes| - 1]])
  }

  function RestoreOutcome(cs: ConfState): Result<Conf, ConfError> {
    if cs.votersOutgoing == [] then
      match OneByOne(IncomingChanges(cs))
      case Err(e) => Err(e)
      case Ok(roles) => Ok(Layout(roles, {}, false))
    else
      match SimpleEach(OutgoingChanges(cs))
      case Err(e) => Err(e)
      case Ok(c) => EnterJointOutcome(c, cs.autoLeave, IncomingChanges(cs))
  }

  // ----- Restoring a live tracker --------------------------------------------------------------

  ghost predicate AllFresh(progress: ProgressMap, fresh_: ProgressView) {
    forall id :: id in progress ==> progress[id] == fresh_
  }

  lemma {:induction false} ReplayAllFresh(progress: ProgressMap, changes: seq<MapChange>, fresh_: ProgressView)
    requires AllFresh(progress, fresh_)
    ensures AllFresh(ReplayProgress(progress, changes, fresh_), fresh_)
  {
    if changes != [] {
      ReplayAllFresh(progress, changes[..|changes| - 1], fresh_);
    }
  }

  /** Installs a proposal, keeping every progress fresh. */
  method Install(tracker: ProgressTracker, p: Proposal, nextIdx: U64)
    requires p.conf.Strong() && Replay(tracker.progress.Keys, p.changes) == p.conf.Ids()
    requires AllFresh(tracker.progress, NewProgress(nextIdx, tracker.maxInflight))
    modifies tracker`progress, tracker`peerIds, tracker`conf
    ensures tracker.Valid() && tracker.conf == p.conf
    ensures AllFresh(tracker.progress, NewProgress(nextIdx, tracker.maxInflight))
  {
    ReplayKeys(tracker.progress, p.changes, NewProgress(nextIdx, tracker.maxInflight));
    ReplayAllFresh(tracker.progress, p.changes, NewProgress(nextIdx, tracker.maxInflight));
    tracker.ApplyConf(p.conf, p.changes, nextIdx);
  }

  method RestoreEmpty(tracker: ProgressTracker, nextIdx: U64, cs: ConfState) returns (r: Result<(), ConfError>)
    requires tracker.Valid() && tracker.conf == EMPTY_CONF && tracker.progress == map[]
    modifies tracker`progress, tracker`peerIds, tracker`conf
    ensures r.Err? ==> RestoreOutcome(cs) == Err(r.error)
    ensures r.Ok? ==> RestoreOutcome(cs) == Ok(tracker.conf) && tracker.Valid()
    ensures r.Ok? ==> AllFresh(tracker.progress, NewProgress(nextIdx, tracker.maxInflight))
  {
    var outgoing, incoming := ToConfChangeSingle(cs);
    if |outgoing| == 0 {
      r := RestoreSimple(tracker, nextIdx, incoming);
    } else {
      r := RestoreOutgoing(tracker, nextIdx, outgoing);
      if r.Err? { return r; }
      var p := EnterJoint(tracker, cs.autoLeave, incoming);
      if p.Err? { return Err(p.error); }
      RolesOfLayout(AssignAll(RolesOf(tracker.conf), incoming), tracker.conf.incoming, cs.autoLeave);
      Install(tracker, p.value, nextIdx);
      return Ok(());
    }
  }

  /** The outgoing voters are put in place by one simple change each. */
  method RestoreOutgoing(tracker: ProgressTracker, nextIdx: U64, outgoing: seq<Change>)
    returns (r: Result<(), ConfError>)
    requires tracker.Valid() && tracker.conf == EMPTY_CONF && tracker.progress == map[]
    modifies tracker`progress, tracker`peerIds, tracker`conf
    ensures r.Err? ==> SimpleEach(outgoing) == Err(r.error)
    ensures r.Ok? ==> SimpleEach(outgoing) == Ok(tracker.conf) && tracker.Valid()
    ensures r.Ok? ==> AllFresh(tracker.progress, NewProgress(nextIdx, tracker.maxInflight))
  {
    hide SimpleOutcome, AllFresh;
    NobodyFresh(NewProgress(nextIdx, tracker.maxInflight));
    for i := 0 to |outgoing|
      invariant tracker.Valid() && SimpleEach(outgoing[..i]) == Ok(tracker.conf)
      invariant AllFresh(tracker.progress, NewProgress(nextIdx, tracker.maxInflight))
    {
      assert outgoing[..i + 1][..i] == outgoing[..i];
      r := ApplyOne(tracker, nextIdx, outgoing[i]);
      if r.Err? {
        SimpleEachFails(outgoing, i);
        return r;
      }
    }
    assert outgoing[..|outgoing|] == outgoing;
    return Ok(());
  }

  lemma NobodyFresh(fresh_: ProgressView)
    ensures AllFresh(map[], fresh_)
  {
  }

  /** One simple change, proposed and installed. */
  method ApplyOne(tracker: ProgressTracker, nextIdx: U64, c: Change) returns (r: Result<(), ConfError>)
    requires tracker.Valid() && AllFresh(tracker.progress, NewProgress(nextIdx, tracker.maxInflight))
    modifies tracker`progress, tracker`peerIds, tracker`conf
    ensures tracker.Valid() && AllFresh(tracker.progress, NewProgress(nextIdx, tracker.maxInflight))
    ensures r.Err? ==> SimpleOutcome(old(tracker.conf), [c]) == Err(r.error)
    ensures r.Ok? ==> SimpleOutcome(old(tracker.conf), [c]) == Ok(tracker.conf)
  {
    var p := Simple(tracker, [c]);
    if p.Err? { return Err(p.error); }
    Install(tracker, p.value, nextIdx);
    return Ok(());
  }

  /** Without outgoing voters the changes are applied to one working copy, one at a time. */
  method RestoreSimple(tracker: ProgressTracker, nextIdx: U64, incoming: seq<Change>) returns (r: Result<(), ConfError>)
    requires tracker.Valid() && tracker.conf == EMPTY_CONF && tracker.progress == map[]
    modifies tracker`progress, tracker`peerIds, tracker`conf
    ensures match r
      case Err(e) => OneByOne(incoming) == Err(e)
      case Ok(_) =>
        && tracker.Valid() && OneByOne(incoming).Ok?
        && tracker.conf == Layout(OneByOne(incoming).value, {}, false)
        && AllFresh(tracker.progress, NewProgress(nextIdx, tracker.maxInflight))
  {
    var copy, checked := CheckAndCopy(tracker);
    for i := 0 to |incoming|
      invariant copy.Tidy() && copy.cfg.outgoing == {} && !copy.cfg.autoLeave
      invariant copy.base == map[] && tracker.progress == map[]
      invariant OneByOne(incoming[..i]) == Ok(RolesOf(copy.cfg))
    {
      assert incoming[..i + 1][..i] == incoming[..i];
      OneChange(RolesOf(copy.cfg), incoming[i]);
      var applied := copy.ApplyChanges([incoming[i]]);
      LayoutOfRoles(copy.cfg);
      if applied.Err? {
        OneByOneFails(incoming, i);
        return Err(applied.error);
      }
    }
    assert incoming[..|incoming|] == incoming;
    LayoutOfRoles(copy.cfg);
    VerdictVersusStrong(copy.cfg, copy.Keys());
    checked := copy.CheckInvariants(copy.cfg);
    if checked.Err? { return checked; }
    Install(tracker, Proposal(copy.cfg, copy.changes), nextIdx);
    return Ok(());
  }

  lemma OneChange(roles: Roles, c: Change)
    ensures AssignAll(roles, [c]) == Assign(roles, c)
  {
    assert [c][..0] == [];
    assert AssignAll(roles, [c][..0]) == roles;
  }

  lemma {:induction false} OneByOneFails(changes: seq<Change>, i: nat)
    requires i < |changes| && OneByOne(changes[..i + 1]) == Err(RemovedAllVoters)
    ensures OneByOne(changes) == Err(RemovedAllVoters)
  {
    if i + 1 == |changes| {
      assert changes[..i + 1] == changes;
    } else {
      assert changes[..|changes| - 1][..i + 1] == changes[..i + 1];
      OneByOneFails(changes[..|changes| - 1], i);
    }
  }

  lemma {:induction false} SimpleEachFails(changes: seq<Change>, i: nat)
    requires i < |changes| && SimpleEach(changes[..i + 1]).Err?
    ensures SimpleEach(changes) == SimpleEach(changes[..i + 1])
  {
    if i + 1 == |changes| {
      assert changes[..i + 1] == changes;
    } else {
      assert changes[..|changes| - 1][..i + 1] == changes[..i + 1];
      SimpleEachFails(changes[..|changes| - 1], i);
    }
  }

  /** Rebuilds into a spare tracker and swaps it in, so that a refused state changes nothing. */
  method Restore(tracker: ProgressTracker, nextIdx: U64, cs: ConfState) returns (r: Result<(), ConfError>)
    modifies tracker
    ensures tracker.maxInflight == old(tracker.maxInflight) && tracker.groupCommit == old(tracker.groupCommit)
    ensures r.Err? ==> RestoreOutcome(cs) == Err(r.error) && unchanged(tracker)
    ensures if r.Ok? then !Refused(cs) && Restores(cs, tracker.conf) else Refused(cs) && r.error == RemovedAllVoters
    ensures r.Ok? ==> RestoreOutcome(cs) == Ok(tracker.conf) && tracker.Valid() && tracker.votes == map[]
    ensures r.Ok? ==> AllFresh(tracker.progress, NewProgress(nextIdx, tracker.maxInflight))
  {
    hide Refused, Restores, RestoreOutcome;
    RestoreMeans(cs);
    var rebuilt := new ProgressTracker(tracker.maxInflight);
    rebuilt.groupCommit := tracker.groupCommit;
    r := RestoreEmpty(rebuilt, nextIdx, cs);
    if r.Ok? {
      tracker.progress, tracker.peerIds, tracker.conf := rebuilt.progress, rebuilt.peerIds, rebuilt.conf;
      tracker.votes, tracker.maxInflight, tracker.groupCommit :=
        rebuilt.votes, rebuilt.maxInflight, rebuilt.groupCommit;
    }
  }

  // ----- What a restored configuration is ------------------------------------------------------

  /** The states worth restoring: strong, free of id zero, and with voters unless nobody is mentioned at all. */
  ghost predicate WellFormed(cs: ConfState) {
    var c := ConfOf(cs);
    c.Strong() && 0 !in c.Ids() && (c.incoming != {} || c == EMPTY_CONF)
  }

  function All(ids: set<U64>, role: Role): Roles { map id | id in ids :: role }

  lemma {:induction false} AssignAsk(roles: Roles, t: ChangeType, ids: seq<U64>)
    requires 0 !in ids && t != UpdateNode
    ensures AssignAll(roles, Ask(t, ids)) == match RoleAsked(t)
      case Some(role) => roles + All(SetOf(ids), role)
      case None => roles - SetOf(ids)
  {
    if ids == [] {
      assert All(SetOf(ids), Voter) == map[] && All(SetOf(ids), Learner) == map[];
    } else {
      var n := |ids| - 1;
      hide SetOf, All, Ask;
      AskFront(t, ids);
      AssignAsk(roles, t, ids[..n]);
      AllNext(roles, SetOf(ids[..n]), ids[n], Voter);
      AllNext(roles, SetOf(ids[..n]), ids[n], Learner);
    }
  }

  lemma AllNext(roles: Roles, ids: set<U64>, id: U64, role: Role)
    ensures (roles + All(ids, role))[id := role] == roles + All(ids + {id}, role)
    ensures roles - ids - {id} == roles - (ids + {id})
  {
  }

  lemma AskFront(t: ChangeType, ids: seq<U64>)
    requires ids != []
    ensures var n := |ids| - 1;
      && Ask(t, ids)[..n] == Ask(t, ids[..n]) && Ask(t, ids)[n] == Change(t, ids[n])
      && SetOf(ids) == SetOf(ids[..n]) + {ids[n]} && ids[n] in ids
      && forall x :: x in ids[..n] ==> x in ids
  {
  }

  /** From the outgoing voters alone, the incoming changes give exactly the voters and learners of the state. */
  lemma IncomingRoles(roles: Roles, cs: ConfState)
    requires WellFormed(cs) && roles.Keys == SetOf(cs.votersOutgoing)
    ensures AssignAll(roles, IncomingChanges(cs)) == RolesOf(ConfOf(cs))
  {
    hide AssignAll, Ask, RolesOf;
    var c := ConfOf(cs);
    var a, b := Ask(RemoveNode, cs.votersOutgoing), Ask(AddNode, cs.voters);
    var d, e := Ask(AddLearnerNode, cs.learners), Ask(AddLearnerNode, cs.learnersNext);
    AssignAllAppend(roles, a, b);
    AssignAllAppend(roles, a + b, d);
    AssignAllAppend(roles, a + b + d, e);
    MentionedAreMembers(cs);
    AssignAsk(roles, RemoveNode, cs.votersOutgoing);
    assert roles - SetOf(cs.votersOutgoing) == map[];
    AssignAsk(map[], AddNode, cs.voters);
    var v := All(c.incoming, Voter);
    assert map[] + v == v;
    AssignAsk(v, AddLearnerNode, cs.learners);
    var w := v + All(c.learners, Learner);
    AssignAsk(w, AddLearnerNode, cs.learnersNext);
    RolesAssembled(c);
  }

  lemma RolesAssembled(c: Conf)
    requires c.Consistent()
    ensures All(c.incoming, Voter) + All(c.learners, Learner) + All(c.learnersNext, Learner) == RolesOf(c)
  {
  }

  lemma MentionedAreMembers(cs: ConfState)
    requires 0 !in ConfOf(cs).Ids()
    ensures 0 !in cs.voters && 0 !in cs.learners && 0 !in cs.votersOutgoing && 0 !in cs.learnersNext
  {
    assert 0 !in SetOf(cs.voters) && 0 !in SetOf(cs.learners);
    assert 0 !in SetOf(cs.votersOutgoing) && 0 !in SetOf(cs.learnersNext);
  }

  /** Adding distinct voters one by one is always accepted and adds up. */
  lemma {:induction false} SimpleEachAdds(ids: seq<U64>)
    requires 0 !in ids
    ensures SimpleEach(Ask(AddNode, ids)) == Ok(Layout(All(SetOf(ids), Voter), {}, false))
  {
    if ids == [] {
      NobodyYet();
      assert SetOf(ids) == {};
    } else {
      var n := |ids| - 1;
      AskFront(AddNode, ids);
      SimpleEachAdds(ids[..n]);
      AddOneVoter(SetOf(ids[..n]), ids[n]);
    }
  }

  lemma NobodyYet()
    ensures Layout(All({}, Voter), {}, false) == EMPTY_CONF
  {
    assert All({}, Voter) == map[];
    assert Those(map[], Voter) == {} && Those(map[], Learner) == {};
  }

  lemma AddOneVoter(voters: set<U64>, id: U64)
    requires id != 0
    ensures SimpleOutcome(Layout(All(voters, Voter), {}, false), [Change(AddNode, id)]) ==
      Ok(Layout(All(voters + {id}, Voter), {}, false))
  {
    var before, after := All(voters, Voter), All(voters + {id}, Voter);
    RolesOfLayout(before, {}, false);
    OneChange(before, Change(AddNode, id));
    assert before[id := Voter] == after;
    assert Those(before, Voter) == voters && Those(after, Voter) == voters + {id};
    var moved := SymmetricDifference(voters + {id}, voters);
    assert moved <= {id};
    SubsetCardinality(moved, {id});
  }

  /** One by one or all at once, as long as the list starts with a voter that is never removed. */
  lemma {:induction false} OneByOneKeeps(changes: seq<Change>, v: U64)
    requires changes != [] && changes[0] == Change(AddNode, v) && v != 0
    requires forall i :: 0 <= i < |changes| && changes[i].nodeId == v ==> changes[i].changeType == AddNode
    ensures OneByOne(changes) == Ok(AssignAll(map[], changes))
    ensures RoleAt(AssignAll(map[], changes), v) == Some(Voter)
  {
    var n := |changes| - 1;
    if n == 0 {
      assert changes == [Change(AddNode, v)];
      OneChange(map[], changes[0]);
      assert OneByOne(changes[..0]) == Ok(map[]);
    } else {
      OneByOneKeeps(changes[..n], v);
    }
    var roles := Assign(AssignAll(map[], changes[..n]), changes[n]);
    assert v in Those(roles, Voter);
  }

  /** The results of a restore are themselves well formed. */
  lemma OutcomeWellFormed(cs: ConfState)
    requires RestoreOutcome(cs) == Ok(ConfOf(cs))
    ensures WellFormed(cs)
  {
    var c := ConfOf(cs);
    if cs.votersOutgoing == [] {
      var roles := OneByOne(IncomingChanges(cs)).value;
      OneByOneSound(IncomingChanges(cs));
      RolesOfLayout(roles, {}, false);
    } else {
      SimpleEachSound(OutgoingChanges(cs));
      var before := SimpleEach(OutgoingChanges(cs)).value;
      LastChangeWins(RolesOf(before), IncomingChanges(cs), 0);
      RolesOfLayout(AssignAll(RolesOf(before), IncomingChanges(cs)), before.incoming, cs.autoLeave);
    }
  }

  lemma {:induction false} OneByOneSound(changes: seq<Change>)
    requires OneByOne(changes).Ok?
    ensures 0 !in OneByOne(changes).value
    ensures changes != [] ==> Those(OneByOne(changes).value, Voter) != {}
    ensures changes == [] ==> Layout(OneByOne(changes).value, {}, false) == EMPTY_CONF
  {
    if changes != [] { OneByOneSound(changes[..|changes| - 1]); }
  }

  lemma {:induction false} SimpleEachSound(changes: seq<Change>)
    requires SimpleEach(changes).Ok?
    ensures 0 !in RolesOf(SimpleEach(changes).value) && 0 !in SimpleEach(changes).value.incoming
  {
    if changes != [] {
      var n := |changes| - 1;
      SimpleEachSound(changes[..n]);
      var c := SimpleEach(changes[..n]).value;
      LastChangeWins(RolesOf(c), [changes[n]], 0);
      RolesOfLayout(AssignAll(RolesOf(c), [changes[n]]), {}, false);
    }
  }

  /**
   * Restoring a state gives back exactly that state if and only if it is well formed; every other
   * state is refused or silently restored as something else.
   */
  lemma RestoreExactly(cs: ConfState)
    ensures RestoreOutcome(cs) == Ok(ConfOf(cs)) <==> WellFormed(cs)
  {
    if RestoreOutcome(cs) == Ok(ConfOf(cs)) {
      OutcomeWellFormed(cs);
    }
    if WellFormed(cs) {
      var c := ConfOf(cs);
      SetOfEmpty(cs.votersOutgoing);
      LayoutOfRoles(c);
      if c.Joint() {
        MentionedAreMembers(cs);
        SimpleEachAdds(cs.votersOutgoing);
        var before := All(c.outgoing, Voter);
        RolesOfLayout(before, {}, false);
        assert Those(before, Voter) == c.outgoing;
        IncomingRoles(before, cs);
      } else {
        IncomingRoles(map[], cs);
        RestoreSimpleExactly(cs);
      }
    }
  }

  lemma RestoreSimpleExactly(cs: ConfState)
    requires WellFormed(cs) && cs.votersOutgoing == []
    ensures OneByOne(IncomingChanges(cs)) == Ok(AssignAll(map[], IncomingChanges(cs)))
  {
    var changes := IncomingChanges(cs);
    SetOfEmpty(cs.voters);
    SetOfEmpty(cs.learners);
    SetOfEmpty(cs.learnersNext);
    if cs.voters != [] {
      var v := cs.voters[0];
      assert v in ConfOf(cs).incoming;
      assert changes[0] == Change(AddNode, v);
      forall i | |cs.voters| <= i < |changes| ensures changes[i].nodeId in SetOf(cs.learners) {
        assert changes[i].nodeId == cs.learners[i - |cs.voters|];
      }
      OneByOneKeeps(changes, v);
    }
  }

  // ----- What becomes of any state, well formed or not -----------------------------------------

  ghost predicate StaysVoter(cs: ConfState, id: U64) {
    id != 0 && id in cs.voters && id !in cs.learners && id !in cs.learnersNext
  }

  ghost predicate SomeoneVotes(cs: ConfState) { exists id :: StaysVoter(cs, id) }

  /** No voter remains, or the list that is applied one change at a time begins without one. */
  ghost predicate Refused(cs: ConfState) {
    if cs.votersOutgoing != [] then cs.votersOutgoing[0] == 0 || !SomeoneVotes(cs)
    else
      && cs.voters + cs.learners + cs.learnersNext != []
      && (cs.voters == [] || cs.voters[0] == 0 || !SomeoneVotes(cs))
  }

  /** Learners win over voters, id zero and repetitions are passed over, and only a joint state can auto-leave. */
  ghost predicate Restores(cs: ConfState, c: Conf) {
    && (forall id :: id in c.incoming <==> StaysVoter(cs, id))
    && (forall id :: id in c.learners + c.learnersNext <==> id != 0 && (id in cs.learners || id in cs.learnersNext))
    && (forall id :: id in c.outgoing <==> id != 0 && id in cs.votersOutgoing)
    && c.Strong() && (c.autoLeave <==> cs.autoLeave && cs.votersOutgoing != [])
  }

  /** Every state is restored as described, or refused for leaving nobody to vote. */
  lemma RestoreMeans(cs: ConfState)
    ensures match RestoreOutcome(cs)
      case Ok(c) => !Refused(cs) && Restores(cs, c)
      case Err(e) => Refused(cs) && e == RemovedAllVoters
  {
    hide OneByOne, SimpleEach, EnterJointOutcome, Refused, Restores;
    if cs.votersOutgoing == [] {
      PlainMeans(cs);
    } else {
      JointMeans(cs);
    }
  }

  /** In a list that asks one thing of everyone, whoever is named gets the role asked for. */
  lemma {:induction false} AskDecides(roles: Roles, t: ChangeType, ids: seq<U64>, id: U64)
    requires t != UpdateNode
    ensures RoleAt(AssignAll(roles, Ask(t, ids)), id)
      == if id != 0 && id in ids then RoleAsked(t) else RoleAt(roles, id)
  {
    if ids != [] {
      AskFront(t, ids);
      AskDecides(roles, t, ids[..|ids| - 1], id);
      InFrontOrLast(ids, id);
    }
  }

  /** After some of the incoming changes: the voters, then those who are made learners. */
  lemma VotersThenLearners(roles: Roles, voters: seq<U64>, learners: seq<U64>, id: U64)
    ensures RoleAt(AssignAll(roles, Ask(AddNode, voters) + Ask(AddLearnerNode, learners)), id)
      == if id != 0 && id in learners then Some(Learner)
         else if id != 0 && id in voters then Some(Voter) else RoleAt(roles, id)
  {
    hide AssignAll, Ask;
    AssignAllAppend(roles, Ask(AddNode, voters), Ask(AddLearnerNode, learners));
    AskDecides(roles, AddNode, voters, id);
    AskDecides(AssignAll(roles, Ask(AddNode, voters)), AddLearnerNode, learners, id);
  }

  lemma IncomingInTwo(cs: ConfState)
    ensures IncomingChanges(cs)
      == Ask(RemoveNode, cs.votersOutgoing)
         + (Ask(AddNode, cs.voters) + Ask(AddLearnerNode, cs.learners + cs.learnersNext))
  {
    assert Ask(AddLearnerNode, cs.learners + cs.learnersNext)
      == Ask(AddLearnerNode, cs.learners) + Ask(AddLearnerNode, cs.learnersNext);
  }

  lemma {:induction false} OneByOneIs(changes: seq<Change>)
    ensures OneByOne(changes).Ok? ==> OneByOne(changes).value == AssignAll(map[], changes)
    ensures OneByOne(changes).Ok?
      <==> KeepsVoter(changes)
    ensures OneByOne(changes).Err? ==> OneByOne(changes).error == RemovedAllVoters
  {
    if changes != [] {
      var n := |changes| - 1;
      OneByOneIs(changes[..n]);
      forall k | 0 < k <= n ensures changes[..n][..k] == changes[..k] {}
      assert changes[..|changes|] == changes;
    }
  }

  lemma SomeVoter(roles: Roles, id: U64)
    ensures RoleAt(roles, id) == Some(Voter) <==> id in Those(roles, Voter)
    ensures RoleAt(roles, id) == Some(Learner) <==> id in Those(roles, Learner)
  {
  }

  /** Whoever is applied first, someone votes after every change. */
  ghost predicate KeepsVoter(changes: seq<Change>) {
    forall k :: 0 < k <= |changes| ==> Those(AssignAll(map[], changes[..k]), Voter) != {}
  }

  ghost predicate BeginsAndEnds(voters: seq<U64>, learners: seq<U64>) {
    voters != [] && voters[0] != 0 && exists id :: id != 0 && id in voters && id !in learners
  }

  /** A list of voters and then learners keeps a voter throughout exactly when it begins and ends with one. */
  lemma PrefixesVote(voters: seq<U64>, learners: seq<U64>)
    ensures var changes := Ask(AddNode, voters) + Ask(AddLearnerNode, learners);
      KeepsVoter(changes) <==> changes == [] || BeginsAndEnds(voters, learners)
  {
    hide AssignAll, Ask, Those;
    var changes := Ask(AddNode, voters) + Ask(AddLearnerNode, learners);
    if KeepsVoter(changes) && changes != [] { KeptMeans(voters, learners); }
    if BeginsAndEnds(voters, learners) {
      var id :| id != 0 && id in voters && id !in learners;
      forall k | 0 < k <= |changes| ensures Those(AssignAll(map[], changes[..k]), Voter) != {} {
        PrefixRoles(voters, learners, k, if k <= |voters| then voters[0] else id);
      }
    }
  }

  lemma KeptMeans(voters: seq<U64>, learners: seq<U64>)
    requires |voters| + |learners| > 0 && KeepsVoter(Ask(AddNode, voters) + Ask(AddLearnerNode, learners))
    ensures BeginsAndEnds(voters, learners)
  {
    hide AssignAll, Ask, Those;
    var changes := Ask(AddNode, voters) + Ask(AddLearnerNode, learners);
    var n := |changes|;
    var first :| first in Those(AssignAll(map[], changes[..1]), Voter);
    PrefixRoles(voters, learners, 1, first);
    assert voters != [] ==> voters[..1] == [voters[0]];
    var last :| last in Those(AssignAll(map[], changes[..n]), Voter);
    PrefixRoles(voters, learners, n, last);
    assert voters[..|voters|] == voters && learners[..|learners|] == learners;
    assert last != 0 && last in voters && last !in learners;
  }

  lemma PrefixRoles(voters: seq<U64>, learners: seq<U64>, k: nat, id: U64)
    requires k <= |voters| + |learners|
    ensures var changes := Ask(AddNode, voters) + Ask(AddLearnerNode, learners);
      id in Those(AssignAll(map[], changes[..k]), Voter) <==>
        if k <= |voters| then id != 0 && id in voters[..k]
        else id != 0 && id in voters && id !in learners[..k - |voters|]
  {
    hide AssignAll, Those;
    var changes := Ask(AddNode, voters) + Ask(AddLearnerNode, learners);
    var few, some := voters[..Min(k, |voters|)], learners[..Max(k - |voters|, 0)];
    assert changes[..k] == Ask(AddNode, few) + Ask(AddLearnerNode, some);
    VotersThenLearners(map[], few, some, id);
    SomeVoter(AssignAll(map[], changes[..k]), id);
  }

  lemma SomeoneEnds(cs: ConfState)
    ensures BeginsAndEnds(cs.voters, cs.learners + cs.learnersNext)
      <==> cs.voters != [] && cs.voters[0] != 0 && SomeoneVotes(cs)
  {
    var learners := cs.learners + cs.learnersNext;
    forall id ensures StaysVoter(cs, id) <==> id != 0 && id in cs.voters && id !in learners {}
  }

  lemma PlainMeans(cs: ConfState)
    requires cs.votersOutgoing == []
    ensures match RestoreOutcome(cs)
      case Ok(c) => !Refused(cs) && Restores(cs, c)
      case Err(e) => Refused(cs) && e == RemovedAllVoters
  {
    hide AssignAll, Ask, OneByOne, KeepsVoter, BeginsAndEnds, SomeoneVotes;
    var learners := cs.learners + cs.learnersNext;
    var changes := IncomingChanges(cs);
    IncomingInTwo(cs);
    assert changes == Ask(AddNode, cs.voters) + Ask(AddLearnerNode, learners);
    OneByOneIs(changes);
    PrefixesVote(cs.voters, learners);
    SomeoneEnds(cs);
    assert cs.voters + cs.learners + cs.learnersNext == [] <==> changes == [];
    if OneByOne(changes).Ok? { LayoutRestores(cs, map[], {}, false); }
  }

  /** The layout of the roles all incoming changes lead to. */
  lemma LayoutRestores(cs: ConfState, before: Roles, outgoing: set<U64>, autoLeave: bool)
    requires forall id :: RoleAt(before, id) == if id in outgoing then Some(Voter) else None
    requires forall id :: id in outgoing <==> id != 0 && id in cs.votersOutgoing
    requires autoLeave <==> cs.autoLeave && cs.votersOutgoing != []
    requires outgoing == {} ==> cs.votersOutgoing == []
    ensures Restores(cs, Layout(AssignAll(before, IncomingChanges(cs)), outgoing, autoLeave))
    ensures Layout(AssignAll(before, IncomingChanges(cs)), outgoing, autoLeave).incoming == {} <==> !SomeoneVotes(cs)
  {
    hide AssignAll, Ask, Those;
    var roles := AssignAll(before, IncomingChanges(cs));
    forall id
      ensures id in Those(roles, Voter) <==> StaysVoter(cs, id)
      ensures id in Those(roles, Learner) <==> id != 0 && (id in cs.learners || id in cs.learnersNext)
    {
      IncomingRole(cs, before, id);
      SomeVoter(roles, id);
    }
    RolesOfLayout(roles, outgoing, autoLeave);
    var l := Those(roles, Learner);
    assert l - outgoing + l * outgoing == l;
    if v :| v in Those(roles, Voter) { assert StaysVoter(cs, v); }
  }

  lemma IncomingRole(cs: ConfState, before: Roles, id: U64)
    requires RoleAt(before, id).Some? ==> id != 0 && id in cs.votersOutgoing
    ensures RoleAt(AssignAll(before, IncomingChanges(cs)), id) ==
      if id != 0 && (id in cs.learners || id in cs.learnersNext) then Some(Learner)
      else if id != 0 && id in cs.voters then Some(Voter) else None
  {
    hide AssignAll, Ask, RoleAt;
    IncomingInTwo(cs);
    var rest := Ask(AddNode, cs.voters) + Ask(AddLearnerNode, cs.learners + cs.learnersNext);
    AssignAllAppend(before, Ask(RemoveNode, cs.votersOutgoing), rest);
    AskDecides(before, RemoveNode, cs.votersOutgoing, id);
    var removed := AssignAll(before, Ask(RemoveNode, cs.votersOutgoing));
    VotersThenLearners(removed, cs.voters, cs.learners + cs.learnersNext, id);
  }

  /** The outgoing voters are put in place unless the first of them is id zero. */
  lemma {:induction false} SimpleEachIs(ids: seq<U64>)
    ensures ids != [] && ids[0] == 0 ==> SimpleEach(Ask(AddNode, ids)) == Err(RemovedAllVoters)
    ensures ids == [] || ids[0] != 0 ==>
      SimpleEach(Ask(AddNode, ids)) == Ok(Layout(All(SetOf(ids) - {0}, Voter), {}, false))
  {
    if ids == [] {
      NobodyYet();
      assert SetOf(ids) - {0} == {};
    } else {
      hide All, Layout, SimpleOutcome, SimpleEach, Ask;
      var front, last := ids[..|ids| - 1], ids[|ids| - 1];
      SimpleEachNext(ids);
      SimpleEachIs(front);
      NonZeroNext(ids);
      if last != 0 {
        AddOneVoter(SetOf(front) - {0}, last);
      } else {
        AddNobody(SetOf(front) - {0});
      }
    }
  }

  lemma SimpleEachNext(ids: seq<U64>)
    requires ids != []
    ensures SimpleEach(Ask(AddNode, ids)) == match SimpleEach(Ask(AddNode, ids[..|ids| - 1]))
      case Err(e) => Err(e)
      case Ok(c) => SimpleOutcome(c, [Change(AddNode, ids[|ids| - 1])])
  {
    hide SimpleOutcome;
    AskFront(AddNode, ids);
  }

  lemma NonZeroNext(ids: seq<U64>)
    requires ids != []
    ensures var front, last := ids[..|ids| - 1], ids[|ids| - 1];
      && SetOf(ids) - {0} == SetOf(front) - {0} + (if last == 0 then {} else {last})
      && (if front == [] then SetOf(front) - {0} == {} && ids[0] == last else ids[0] == front[0])
      && (front != [] && front[0] != 0 ==> SetOf(front) - {0} != {})
  {
    var front := ids[..|ids| - 1];
    SetOfNext(ids, |ids| - 1);
    assert ids[..|ids|] == ids;
    if front != [] && front[0] != 0 { assert front[0] in SetOf(front) - {0}; }
  }

  /** Adding id zero changes nothing, which is refused only where nobody votes yet. */
  lemma AddNobody(voters: set<U64>)
    ensures var c := Layout(All(voters, Voter), {}, false);
      SimpleOutcome(c, [Change(AddNode, 0)]) == if voters == {} then Err(RemovedAllVoters) else Ok(c)
  {
    var roles := All(voters, Voter);
    RolesOfLayout(roles, {}, false);
    OneChange(roles, Change(AddNode, 0));
    assert Those(roles, Voter) == voters;
    assert SymmetricDifference(voters, voters) == {};
  }

  lemma JointMeans(cs: ConfState)
    requires cs.votersOutgoing != []
    ensures match RestoreOutcome(cs)
      case Ok(c) => !Refused(cs) && Restores(cs, c)
      case Err(e) => Refused(cs) && e == RemovedAllVoters
  {
    hide AssignAll, SimpleEach, Restores, All, RolesOf, Layout, SomeoneVotes;
    SimpleEachIs(cs.votersOutgoing);
    if cs.votersOutgoing[0] != 0 {
      var outgoing := SetOf(cs.votersOutgoing) - {0};
      VotersOnly(outgoing);
      assert cs.votersOutgoing[0] in outgoing;
      LayoutRestores(cs, All(outgoing, Voter), outgoing, cs.autoLeave);
    }
  }

  lemma VotersOnly(voters: set<U64>)
    ensures var c := Layout(All(voters, Voter), {}, false);
      c.incoming == voters && c.outgoing == {} && RolesOf(c) == All(voters, Voter)
    ensures forall id :: RoleAt(All(voters, Voter), id) == if id in voters then Some(Voter) else None
  {
    RolesOfLayout(All(voters, Voter), {}, false);
    assert Those(All(voters, Voter), Voter) == voters;
  }

  /** Exporting a configuration a run can reach and restoring the export gives the configuration back. */
  lemma RoundTrip(c: Conf, cs: ConfState)
    requires c.Strong() && 0 !in c.Ids() && (c.incoming != {} || c == EMPTY_CONF)
    requires ConfOf(cs) == c
    ensures RestoreOutcome(cs) == Ok(c)
  {
    RestoreExactly(cs);
  }

  /** A simple state that asks for auto-leave is accepted, and the request is silently dropped. */
  lemma AutoLeaveDropped()
    ensures var cs := ConfState([1], [], [], [], true);
      RestoreOutcome(cs) == Ok(Conf({1}, {}, {}, {}, false)) && ConfOf(cs).autoLeave
  {
    var plain := ConfState([1], [], [], [], false);
    assert SetOf([1 as U64]) == {1} && SetOf<U64>([]) == {};
    RestoreExactly(plain);
    assert IncomingChanges(ConfState([1], [], [], [], true)) == IncomingChanges(plain);
  }
}

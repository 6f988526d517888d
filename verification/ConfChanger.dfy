/** Computes the next configuration of a tracker, in one step or through a joint phase. */
module ConfChanger {
  import opened Common
  import opened Sorting
  import opened Configuration
  import opened Tracker

  // ----- What each change amounts to, on trackers that keep their invariant --------------------

  function SymmetricDifference(a: set<U64>, b: set<U64>): set<U64> { (a - b) + (b - a) }

  /** A simple change gives everyone the role asked for, provided at most one voter changes. */
  function SimpleOutcome(c: Conf, changes: seq<Change>): Result<Conf, ConfError> {
    if c.Joint() then Err(CannotApplySimpleInJointConfig) else
    var next := Layout(AssignAll(RolesOf(c), changes), {}, false);
    if next.incoming == {} then Err(RemovedAllVoters)
    else if |SymmetricDifference(next.incoming, c.incoming)| > 1 then Err(MultipleVotersChangedWithoutJoint)
    else Ok(next)
  }

  /** A joint phase gives everyone the role asked for while the old voters are still consulted. */
  function EnterJointOutcome(c: Conf, autoLeave: bool, changes: seq<Change>): Result<Conf, ConfError> {
    if c.Joint() then Err(ConfigAlreadyJoint) else
    if c.incoming == {} then Err(ZeroVoterConfigJoint) else
    var next := Layout(AssignAll(RolesOf(c), changes), c.incoming, autoLeave);
    if next.incoming == {} then Err(RemovedAllVoters) else Ok(next)
  }

  /** Leaving keeps every role and stops consulting the old voters. */
  function LeaveJointOutcome(c: Conf): Result<Conf, ConfError> {
    if !c.Joint() then Err(LeaveNonJointConfig) else Ok(Layout(RolesOf(c), {}, false))
  }

  /** `checkInvariants` as a verdict on a configuration and the ids that have progress. */
  function InvariantVerdict(c: Conf, keys: set<U64>): Result<(), ConfError> {
    if !(c.Ids() <= keys) || !(c.learners !! c.incoming + c.outgoing) || !(c.learnersNext <= c.outgoing)
    then Err(ConfChangeError)
    else if !c.Joint() && c.learnersNext != {} then Err(LearnersNextMustBeEmpty)
    else if !c.Joint() && c.autoLeave then Err(AutoLeaveMustBeFalse)
    else Ok(())
  }

  /** The check passes everything strong, and what it alone misses is a learner-to-be that still votes. */
  lemma VerdictVersusStrong(c: Conf, keys: set<U64>)
    ensures c.Strong() && c.Ids() <= keys <==> InvariantVerdict(c, keys).Ok? && c.learnersNext !! c.incoming
  {
  }

  /** Everyone tracked, no learner a voter, and every learner-to-be an outgoing voter. */
  ghost predicate InPlace(c: Conf, keys: set<U64>) {
    forall id :: (id in c.incoming || id in c.outgoing || id in c.learners || id in c.learnersNext) ==>
      && id in keys && (id in c.learners ==> id !in c.incoming && id !in c.outgoing)
      && (id in c.learnersNext ==> id in c.outgoing)
  }

  /** What the verdict says, id by id; a learner-to-be without outgoing voters is already out of place. */
  lemma VerdictReasons(c: Conf, keys: set<U64>)
    ensures InvariantVerdict(c, keys).Ok? <==> InPlace(c, keys) && (c.autoLeave ==> c.outgoing != {})
    ensures InvariantVerdict(c, keys) == Err(ConfChangeError) <==> !InPlace(c, keys)
    ensures InvariantVerdict(c, keys) == Err(AutoLeaveMustBeFalse)
      <==> InPlace(c, keys) && c.autoLeave && c.outgoing == {}
  {
    if InPlace(c, keys) {
      assert c.Ids() <= keys && c.learners !! c.incoming + c.outgoing && c.learnersNext <= c.outgoing;
    }
  }

  /** A proposed configuration and the progress edits that go with it, `ConfChangeResult`. */
  datatype Proposal = Proposal(conf: Conf, changes: seq<MapChange>)

  type Outcome = Result<Proposal, ConfError>

  /** `r` proposes exactly `want`, with edits that lead to exactly its members. */
  ghost predicate Proposes(keys: set<U64>, want: Result<Conf, ConfError>, r: Outcome) {
    match want
    case Err(e) => r == Err(e)
    case Ok(c) =>
      && r.Ok? && r.value.conf == c
      && Proper(keys, r.value.changes) && Replay(keys, r.value.changes) == c.Ids()
  }

  /** Progress is dropped only for nodes whose removal was asked for. */
  ghost predicate RemovesOnlyAsked(changes: seq<MapChange>, ccs: seq<Change>) {
    forall c :: c in changes && c.kind == Remove ==> Change(RemoveNode, c.id) in ccs
  }

  /** Moving one id between the places of a configuration changes its role and no other. */
  lemma Moved(c: Conf, d: Conf, id: U64, role: Option<Role>)
    requires c.Consistent() && d.Consistent()
    requires d.incoming == if role == Some(Voter) then c.incoming + {id} else c.incoming - {id}
    requires d.learners + d.learnersNext ==
      if role == Some(Learner) then c.learners + c.learnersNext + {id} else c.learners + c.learnersNext - {id}
    ensures RolesOf(d) == if role == None then RolesOf(c) - {id} else RolesOf(c)[id := role.value]
  {
    var want := if role == None then RolesOf(c) - {id} else RolesOf(c)[id := role.value];
    var l, l' := c.learners + c.learnersNext, d.learners + d.learnersNext;
    assert RolesOf(c).Keys == c.incoming + l && RolesOf(d).Keys == d.incoming + l';
    match role {
      case None => assert l' == l - {id};
      case Some(Voter) => assert l' == l - {id};
      case Some(Learner) => assert l' == l + {id};
    }
    assert RolesOf(d).Keys == want.Keys;
    forall x | x in want ensures RolesOf(d)[x] == want[x] {
      assert x in d.learners + d.learnersNext ==> x !in d.incoming;
    }
  }

  // ----- The working copy ----------------------------------------------------------------------

  /** A configuration being edited, over a progress map that stays as it is (`IncrChangeMap`). */
  class WorkingCopy {
    var cfg: Conf
    const base: ProgressMap
    var changes: seq<MapChange>

    constructor (cfg: Conf, base: ProgressMap)
      ensures this.cfg == cfg && this.base == base && changes == []
    {
      this.cfg, this.base, changes := cfg, base, [];
    }

    ghost function Keys(): set<U64>
      reads this
    {
      Replay(base.Keys, changes)
    }

    /** Mid-edit invariant: everyone has one place and exactly the members have progress. */
    ghost predicate Tidy()
      reads this
    {
      cfg.Consistent() && Keys() == cfg.Ids() && Proper(base.Keys, changes)
    }

    /** The latest edit of an id decides; without one the base map does. */
    method Contains(id: U64) returns (r: bool)
      ensures r == (id in Keys())
    {
      var i := |changes|;
      assert changes[..i] == changes;
      while i > 0
        invariant 0 <= i <= |changes|
        invariant id in Keys() <==> id in Replay(base.Keys, changes[..i])
      {
        i := i - 1;
        assert changes[..i + 1][..i] == changes[..i];
        if changes[i].id == id { return changes[i].kind == Add; }
      }
      return id in base;
    }

    method AppendChange(id: U64, kind: MapChangeKind)
      modifies this`changes
      ensures changes == old(changes) + [MapChange(id, kind)]
      ensures Keys() == if kind == Add then old(Keys()) + {id} else old(Keys()) - {id}
      ensures old(Proper(base.Keys, changes)) && (kind == Add <==> id !in old(Keys())) ==> Proper(base.Keys, changes)
    {
      var c := MapChange(id, kind);
      if Proper(base.Keys, changes) && (kind == Add <==> id !in Keys()) {
        ProperAppend(base.Keys, changes, c);
      }
      changes := changes + [c];
    }

    method MakeVoter(id: U64)
      modifies this
      ensures cfg.outgoing == old(cfg.outgoing) && cfg.autoLeave == old(cfg.autoLeave)
      ensures changes == old(changes) || changes == old(changes) + [MapChange(id, Add)]
      ensures old(Tidy()) ==> Tidy() && RolesOf(cfg) == old(RolesOf(cfg))[id := Voter]
    {
      var known := Contains(id);
      if !known {
        cfg := cfg.(incoming := cfg.incoming + {id});
        AppendChange(id, Add);
        if old(Tidy()) { Moved(old(cfg), cfg, id, Some(Voter)); }
        return;
      }
      cfg := cfg.(incoming := cfg.incoming + {id}, learners := cfg.learners - {id},
                  learnersNext := cfg.learnersNext - {id});
      if old(Tidy()) { Moved(old(cfg), cfg, id, Some(Voter)); }
    }

    method MakeLearner(id: U64)
      modifies this
      ensures cfg.outgoing == old(cfg.outgoing) && cfg.autoLeave == old(cfg.autoLeave)
      ensures changes == old(changes) || changes == old(changes) + [MapChange(id, Add)]
      ensures old(Tidy()) ==> Tidy() && RolesOf(cfg) == old(RolesOf(cfg))[id := Learner]
    {
      var known := Contains(id);
      if !known {
        cfg := cfg.(learners := cfg.learners + {id});
        AppendChange(id, Add);
        if old(Tidy()) { Moved(old(cfg), cfg, id, Some(Learner)); }
        return;
      }
      if id in cfg.learners {
        if old(Tidy()) { Moved(old(cfg), cfg, id, Some(Learner)); }
        return;
      }
      cfg := cfg.(incoming := cfg.incoming - {id}, learners := cfg.learners - {id},
                  learnersNext := cfg.learnersNext - {id});
      if id in cfg.outgoing {
        cfg := cfg.(learnersNext := cfg.learnersNext + {id});
      } else {
        cfg := cfg.(learners := cfg.learners + {id});
      }
      if old(Tidy()) { Moved(old(cfg), cfg, id, Some(Learner)); }
    }

    method Discard(id: U64)
      modifies this
      ensures cfg.outgoing == old(cfg.outgoing) && cfg.autoLeave == old(cfg.autoLeave)
      ensures changes == old(changes) || changes == old(changes) + [MapChange(id, Remove)]
      ensures old(Tidy()) ==> Tidy() && RolesOf(cfg) == old(RolesOf(cfg)) - {id}
    {
      var known := Contains(id);
      if !known {
        if old(Tidy()) { Moved(old(cfg), cfg, id, None); }
        return;
      }
      cfg := cfg.(incoming := cfg.incoming - {id}, learners := cfg.learners - {id},
                  learnersNext := cfg.learnersNext - {id});
      if id !in cfg.outgoing {
        AppendChange(id, Remove);
      }
      if old(Tidy()) { Moved(old(cfg), cfg, id, None); }
    }

    method ApplyChanges(ccs: seq<Change>) returns (r: Result<(), ConfError>)
      modifies this
      ensures cfg.outgoing == old(cfg.outgoing) && cfg.autoLeave == old(cfg.autoLeave)
      ensures old(Tidy()) ==> Tidy() && RolesOf(cfg) == AssignAll(old(RolesOf(cfg)), ccs)
      ensures old(RemovesOnlyAsked(changes, ccs)) ==> RemovesOnlyAsked(changes, ccs)
      ensures r == if cfg.incoming == {} then Err(RemovedAllVoters) else Ok(())
    {
      for i := 0 to |ccs|
        invariant cfg.outgoing == old(cfg.outgoing) && cfg.autoLeave == old(cfg.autoLeave)
        invariant old(Tidy()) ==> Tidy() && RolesOf(cfg) == AssignAll(old(RolesOf(cfg)), ccs[..i])
        invariant old(RemovesOnlyAsked(changes, ccs)) ==> RemovesOnlyAsked(changes, ccs)
      {
        assert ccs[..i + 1][..i] == ccs[..i];
        var cc := ccs[i];
        if cc.nodeId == 0 { continue; }
        match cc.changeType {
          case AddNode => MakeVoter(cc.nodeId);
          case RemoveNode => Discard(cc.nodeId);
          case AddLearnerNode => MakeLearner(cc.nodeId);
          case UpdateNode =>
        }
      }
      assert ccs[..|ccs|] == ccs;
      if cfg.incoming == {} { return Err(RemovedAllVoters); }
      return Ok(());
    }

    /** Progress goes for outgoing voters that neither vote nor learn in the new configuration. */
    method DropOutgoingOnly()
      modifies this`changes
      ensures old(forall c :: c in changes ==> c.kind == Remove) ==> forall c :: c in changes ==> c.kind == Remove
      ensures old(Proper(base.Keys, changes) && cfg.outgoing <= Keys()) ==>
        Proper(base.Keys, changes) && Keys() == old(Keys()) - (cfg.outgoing - cfg.incoming - cfg.learners)
    {
      var rest := cfg.outgoing;
      while rest != {}
        invariant rest <= cfg.outgoing
        invariant old(forall c :: c in changes ==> c.kind == Remove) ==> forall c :: c in changes ==> c.kind == Remove
        invariant old(Proper(base.Keys, changes) && cfg.outgoing <= Keys()) ==>
          Proper(base.Keys, changes) && Keys() == old(Keys()) - (cfg.outgoing - rest - cfg.incoming - cfg.learners)
        decreases rest
      {
        var id :| id in rest;
        rest := rest - {id};
        if id !in cfg.incoming && id !in cfg.learners {
          AppendChange(id, Remove);
        }
      }
    }

    method CheckInvariants(c: Conf) returns (r: Result<(), ConfError>)
      ensures r == InvariantVerdict(c, Keys())
      ensures r.Ok? <==> InPlace(c, Keys()) && (c.autoLeave ==> c.outgoing != {})
      ensures r == Err(ConfChangeError) <==> !InPlace(c, Keys())
    {
      VerdictReasons(c, Keys());
      hide InPlace;
      var voters := VoterIds(c);
      for i := 0 to |voters|
        invariant SetOf(voters[..i]) <= Keys()
      {
        assert voters[..i + 1] == voters[..i] + [voters[i]];
        SetOfAppend(voters[..i], [voters[i]]);
        var known := Contains(voters[i]);
        if !known {
          assert voters[i] in SetOf(voters);
          return Err(ConfChangeError);
        }
      }
      assert voters[..|voters|] == voters;

      var rest := c.learners;
      while rest != {}
        invariant rest <= c.learners
        invariant c.learners - rest <= Keys() && c.learners - rest !! c.incoming + c.outgoing
        decreases rest
      {
        var id :| id in rest;
        var known := Contains(id);
        if !known { return Err(ConfChangeError); }
        if id in c.outgoing { return Err(ConfChangeError); }
        if id in c.incoming { return Err(ConfChangeError); }
        rest := rest - {id};
      }
      rest := c.learnersNext;
      while rest != {}
        invariant rest <= c.learnersNext
        invariant c.learnersNext - rest <= Keys() && c.learnersNext - rest <= c.outgoing
        decreases rest
      {
        var id :| id in rest;
        var known := Contains(id);
        if !known { return Err(ConfChangeError); }
        if id !in c.outgoing { return Err(ConfChangeError); }
        rest := rest - {id};
      }
      if !c.Joint() {
        if c.learnersNext != {} { return Err(LearnersNextMustBeEmpty); }
        if c.autoLeave { return Err(AutoLeaveMustBeFalse); }
      }
      return Ok(());
    }
  }

  /** `JointConfiguration.ids`: both halves in one sorted list, each id once. */
  method VoterIds(c: Conf) returns (ids: seq<U64>)
    ensures StrictlySorted(ids) && SetOf(ids) == c.incoming + c.outgoing
  {
    var first := ListKeys(c.incoming);
    var second := ListKeys(c.outgoing);
    var out := first;
    for i := 0 to |second|
      invariant Distinct(out) && SetOf(out) == SetOf(first) + SetOf(second[..i])
    {
      SetOfNext(second, i);
      out := AppendNew(out, second[i]);
    }
    assert second[..|second|] == second;
    ids := Sorted(out);
  }

  method AppendNew(list: seq<U64>, id: U64) returns (r: seq<U64>)
    requires Distinct(list)
    ensures Distinct(r) && SetOf(r) == SetOf(list) + {id}
  {
    if id in list {
      assert id in SetOf(list);
      return list;
    }
    DistinctAppend(list, id);
    return list + [id];
  }

  method Sorted(out: seq<U64>) returns (ids: seq<U64>)
    requires Distinct(out)
    ensures StrictlySorted(ids) && SetOf(ids) == SetOf(out)
  {
    var sorted := new U64[|out|](i requires 0 <= i < |out| => out[i]);
    assert sorted[..] == out;
    SortIds(sorted);
    ids := sorted[..];
  }

  // ----- The three changes ---------------------------------------------------------------------

  ghost function Differences(a: set<U64>, b: set<U64>): nat { |SymmetricDifference(a, b)| }

  /** The merge loop of `simple`: how many voters two sorted lists do not share. */
  method CountDifferences(newVoters: seq<U64>, oldVoters: seq<U64>) returns (diff: nat)
    requires StrictlySorted(newVoters) && StrictlySorted(oldVoters)
    ensures diff == Differences(SetOf(newVoters), SetOf(oldVoters))
  {
    diff := 0;
    var i, j := 0, 0;
    while i < |newVoters| && j < |oldVoters|
      invariant i <= |newVoters| && j <= |oldVoters|
      invariant diff + MergeCount(newVoters, i, oldVoters, j) == MergeCount(newVoters, 0, oldVoters, 0)
    {
      if newVoters[i] < oldVoters[j] {
        diff := diff + 1;
        i := i + 1;
      } else if newVoters[i] > oldVoters[j] {
        diff := diff + 1;
        j := j + 1;
      } else {
        i := i + 1;
        j := j + 1;
      }
    }
    diff := diff + (|newVoters| - i) + (|oldVoters| - j);
    MergeCountsDifferences(newVoters, 0, oldVoters, 0);
    FromStart(newVoters);
    FromStart(oldVoters);
  }

  /** Both voter sets are listed, sorted and merged. */
  method VotersChanged(incoming: set<U64>, before: set<U64>) returns (diff: nat)
    ensures diff == |SymmetricDifference(incoming, before)|
  {
    var newVoters := ListKeys(incoming);
    var oldVoters := ListKeys(before);
    newVoters := Sorted(newVoters);
    oldVoters := Sorted(oldVoters);
    diff := CountDifferences(newVoters, oldVoters);
  }

  /** What a merge counts as not shared from positions `i` and `j` on. */
  function MergeCount(s: seq<U64>, i: nat, t: seq<U64>, j: nat): nat
    requires i <= |s| && j <= |t|
    decreases |s| - i + |t| - j
  {
    if i == |s| || j == |t| then |s| - i + |t| - j
    else if s[i] < t[j] then 1 + MergeCount(s, i + 1, t, j)
    else if s[i] > t[j] then 1 + MergeCount(s, i, t, j + 1)
    else MergeCount(s, i + 1, t, j + 1)
  }

  /** On strictly sorted lists that count is the size of the symmetric difference. */
  lemma {:induction false} MergeCountsDifferences(s: seq<U64>, i: nat, t: seq<U64>, j: nat)
    requires StrictlySorted(s) && StrictlySorted(t) && i <= |s| && j <= |t|
    ensures MergeCount(s, i, t, j) == Differences(From(s, i), From(t, j))
    decreases |s| - i + |t| - j
  {
    hide From, Differences, StrictlySorted;
    if i == |s| || j == |t| {
      MergeEnd(s, i, t, j);
    } else {
      MergeStep(s, i, t, j);
      if s[i] < t[j] {
        MergeCountsDifferences(s, i + 1, t, j);
      } else if s[i] > t[j] {
        MergeCountsDifferences(s, i, t, j + 1);
      } else {
        MergeCountsDifferences(s, i + 1, t, j + 1);
      }
    }
  }

  /** The elements from position `i` on. */
  ghost function From(s: seq<U64>, i: nat): set<U64>
    requires i <= |s|
    decreases |s| - i
  {
    if i == |s| then {} else {s[i]} + From(s, i + 1)
  }

  lemma {:induction false} FromContains(s: seq<U64>, i: nat, x: U64)
    requires i <= |s|
    ensures x in From(s, i) <==> exists k :: i <= k < |s| && s[k] == x
    decreases |s| - i
  {
    if i < |s| {
      FromContains(s, i + 1, x);
    }
  }

  lemma FromStart(s: seq<U64>)
    ensures From(s, 0) == SetOf(s)
  {
    forall x ensures x in From(s, 0) <==> x in SetOf(s) { FromContains(s, 0, x); }
  }

  ghost predicate Above(a: set<U64>, x: U64) { forall e :: e in a ==> e > x }

  lemma FromAbove(s: seq<U64>, i: nat)
    requires StrictlySorted(s) && i < |s|
    ensures Above(From(s, i + 1), s[i])
  {
    var rest := From(s, i + 1);
    forall x | x in rest ensures x > s[i] { FromContains(s, i + 1, x); }
  }

  lemma {:induction false} FromCount(s: seq<U64>, i: nat)
    requires StrictlySorted(s) && i <= |s|
    ensures |From(s, i)| == |s| - i
    decreases |s| - i
  {
    if i < |s| {
      FromAbove(s, i);
      FromCount(s, i + 1);
    }
  }

  lemma MergeStep(s: seq<U64>, i: nat, t: seq<U64>, j: nat)
    requires StrictlySorted(s) && StrictlySorted(t) && i < |s| && j < |t|
    ensures Differences(From(s, i), From(t, j)) ==
      if s[i] < t[j] then 1 + Differences(From(s, i + 1), From(t, j))
      else if s[i] > t[j] then 1 + Differences(From(s, i), From(t, j + 1))
      else Differences(From(s, i + 1), From(t, j + 1))
  {
    FromAbove(s, i);
    FromAbove(t, j);
    var a, b := From(s, i + 1), From(t, j + 1);
    assert From(s, i) == a + {s[i]};
    assert From(t, j) == b + {t[j]};
    LeastElements(a, s[i], b, t[j]);
  }

  lemma MergeEnd(s: seq<U64>, i: nat, t: seq<U64>, j: nat)
    requires StrictlySorted(s) && StrictlySorted(t) && i <= |s| && j <= |t| && (i == |s| || j == |t|)
    ensures Differences(From(s, i), From(t, j)) == (|s| - i) + (|t| - j)
  {
    FromCount(s, i);
    FromCount(t, j);
  }

  /** Comparing the least elements of two sets, as the merge does. */
  lemma LeastElements(a: set<U64>, x: U64, b: set<U64>, y: U64)
    requires Above(a, x) && Above(b, y)
    ensures Differences(a + {x}, b + {y}) ==
      if x < y then 1 + Differences(a, b + {y})
      else if x > y then 1 + Differences(a + {x}, b)
      else Differences(a, b)
  {
    if x < y {
      OneMore(a, b + {y}, x);
    } else if x > y {
      OneMore(b, a + {x}, y);
    } else {
      assert SymmetricDifference(a + {x}, b + {y}) == SymmetricDifference(a, b);
    }
  }

  lemma OneMore(a: set<U64>, b: set<U64>, x: U64)
    requires x !in a && x !in b
    ensures Differences(a + {x}, b) == 1 + Differences(a, b)
  {
    assert SymmetricDifference(a + {x}, b) == SymmetricDifference(a, b) + {x};
  }

  /** A working copy of the tracker's state, refused if that state is already broken. */
  method CheckAndCopy(tracker: ProgressTracker) returns (copy: WorkingCopy, r: Result<(), ConfError>)
    ensures fresh(copy) && copy.cfg == tracker.conf && copy.base == tracker.progress && copy.changes == []
    ensures r == InvariantVerdict(tracker.conf, tracker.progress.Keys)
    ensures tracker.Valid() ==> r.Ok? && copy.Tidy()
  {
    copy := new WorkingCopy(tracker.conf, tracker.progress);
    r := copy.CheckInvariants(tracker.conf);
    VerdictVersusStrong(tracker.conf, tracker.progress.Keys);
  }

  method Simple(tracker: ProgressTracker, ccs: seq<Change>) returns (r: Outcome)
    ensures !tracker.conf.Joint() && InvariantVerdict(tracker.conf, tracker.progress.Keys).Err? ==>
      r == Err(InvariantVerdict(tracker.conf, tracker.progress.Keys).error)
    ensures r.Ok? ==> InvariantVerdict(r.value.conf, Replay(tracker.progress.Keys, r.value.changes)).Ok?
    ensures r.Ok? ==> RemovesOnlyAsked(r.value.changes, ccs)
    ensures tracker.Valid() ==> Proposes(tracker.progress.Keys, SimpleOutcome(tracker.conf, ccs), r)
  {
    if tracker.conf.Joint() { return Err(CannotApplySimpleInJointConfig); }
    var copy, checked := CheckAndCopy(tracker);
    if checked.Err? { return Err(checked.error); }

    var applied := copy.ApplyChanges(ccs);
    if applied.Err? {
      LayoutWhenTidy(tracker, copy, ccs);
      return Err(applied.error);
    }

    var diff := VotersChanged(copy.cfg.incoming, tracker.conf.incoming);
    LayoutWhenTidy(tracker, copy, ccs);
    if diff > 1 { return Err(MultipleVotersChangedWithoutJoint); }

    checked := copy.CheckInvariants(copy.cfg);
    if checked.Err? { return Err(checked.error); }
    return Ok(Proposal(copy.cfg, copy.changes));
  }

  /** On a tracker that keeps its invariant, the edited copy is the layout of the roles asked for. */
  lemma LayoutWhenTidy(tracker: ProgressTracker, copy: WorkingCopy, ccs: seq<Change>)
    ensures tracker.Valid() && copy.Tidy() && RolesOf(copy.cfg) == AssignAll(RolesOf(tracker.conf), ccs) ==>
      && copy.cfg == Layout(AssignAll(RolesOf(tracker.conf), ccs), copy.cfg.outgoing, copy.cfg.autoLeave)
      && (copy.cfg.Strong() ==> InvariantVerdict(copy.cfg, copy.Keys()).Ok?)
  {
    if tracker.Valid() && copy.Tidy() {
      LayoutOfRoles(copy.cfg);
      VerdictVersusStrong(copy.cfg, copy.Keys());
    }
  }

  method EnterJoint(tracker: ProgressTracker, autoLeave: bool, ccs: seq<Change>) returns (r: Outcome)
    ensures !tracker.conf.Joint() && InvariantVerdict(tracker.conf, tracker.progress.Keys).Err? ==>
      r == Err(InvariantVerdict(tracker.conf, tracker.progress.Keys).error)
    ensures r.Ok? ==> InvariantVerdict(r.value.conf, Replay(tracker.progress.Keys, r.value.changes)).Ok?
    ensures r.Ok? ==> RemovesOnlyAsked(r.value.changes, ccs)
    ensures tracker.Valid() ==> Proposes(tracker.progress.Keys, EnterJointOutcome(tracker.conf, autoLeave, ccs), r)
  {
    if tracker.conf.Joint() { return Err(ConfigAlreadyJoint); }
    var copy, checked := CheckAndCopy(tracker);
    if checked.Err? { return Err(checked.error); }
    if copy.cfg.incoming == {} { return Err(ZeroVoterConfigJoint); }

    copy.cfg := copy.cfg.(outgoing := copy.cfg.outgoing + copy.cfg.incoming);
    assert RolesOf(copy.cfg) == RolesOf(tracker.conf);
    var applied := copy.ApplyChanges(ccs);
    if applied.Err? {
      LayoutWhenTidy(tracker, copy, ccs);
      return Err(applied.error);
    }
    copy.cfg := copy.cfg.(autoLeave := autoLeave);
    LayoutWhenTidy(tracker, copy, ccs);
    checked := copy.CheckInvariants(copy.cfg);
    if checked.Err? { return Err(checked.error); }
    return Ok(Proposal(copy.cfg, copy.changes));
  }

  method LeaveJoint(tracker: ProgressTracker) returns (r: Outcome)
    ensures tracker.conf.Joint() && InvariantVerdict(tracker.conf, tracker.progress.Keys).Err? ==>
      r == Err(InvariantVerdict(tracker.conf, tracker.progress.Keys).error)
    ensures r.Ok? ==> InvariantVerdict(r.value.conf, Replay(tracker.progress.Keys, r.value.changes)).Ok?
    ensures r.Ok? ==> forall c :: c in r.value.changes ==> c.kind == Remove
    ensures tracker.Valid() ==> Proposes(tracker.progress.Keys, LeaveJointOutcome(tracker.conf), r)
  {
    if !tracker.conf.Joint() { return Err(LeaveNonJointConfig); }
    var copy, checked := CheckAndCopy(tracker);
    if checked.Err? { return Err(checked.error); }

    copy.cfg := copy.cfg.(learners := copy.cfg.learners + copy.cfg.learnersNext);
    copy.cfg := copy.cfg.(learnersNext := {});
    copy.DropOutgoingOnly();
    copy.cfg := copy.cfg.(outgoing := {}, autoLeave := false);
    if tracker.Valid() {
      assert RolesOf(copy.cfg) == RolesOf(tracker.conf);
      LayoutOfRoles(copy.cfg);
      VerdictVersusStrong(copy.cfg, copy.Keys());
    }
    checked := copy.CheckInvariants(copy.cfg);
    if checked.Err? { return Err(checked.error); }
    return Ok(Proposal(copy.cfg, copy.changes));
  }
}

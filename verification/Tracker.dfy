/** The progress tracker: the configuration in force, one progress per member, and the vote tally. */
module Tracker {
  import opened Common
  import opened Sorting
  import opened Quorum
  import opened Configuration
  import Progress

  type ProgressView = Progress.ProgressView
  type ProgressMap = map<U64, ProgressView>

  datatype MapChangeKind = Add | Remove

  datatype MapChange = MapChange(id: U64, kind: MapChangeKind)

  /** The member ids left after a list of additions and removals. */
  function Replay(keys: set<U64>, changes: seq<MapChange>): set<U64> {
    if changes == [] then keys
    else
      var before := Replay(keys, changes[..|changes| - 1]);
      var c := changes[|changes| - 1];
      if c.kind == Add then before + {c.id} else before - {c.id}
  }

  /** A newly added member starts afresh and counts as recently active. */
  function NewProgress(nextIdx: nat, maxInflight: nat): ProgressView {
    Progress.FreshProgress(nextIdx, maxInflight).(recentActive := true)
  }

  function ReplayProgress(progress: ProgressMap, changes: seq<MapChange>, fresh_: ProgressView): ProgressMap {
    if changes == [] then progress
    else
      var before := ReplayProgress(progress, changes[..|changes| - 1], fresh_);
      var c := changes[|changes| - 1];
      if c.kind == Add then before[c.id := fresh_] else before - {c.id}
  }

  /** Every addition is of an absent id and every removal of a present one: no live progress is overwritten. */
  ghost predicate Proper(keys: set<U64>, changes: seq<MapChange>) {
    forall i :: 0 <= i < |changes| ==>
      (changes[i].kind == Add <==> changes[i].id !in Replay(keys, changes[..i]))
  }

  lemma {:induction false} ReplayKeys(progress: ProgressMap, changes: seq<MapChange>, fresh_: ProgressView)
    ensures ReplayProgress(progress, changes, fresh_).Keys == Replay(progress.Keys, changes)
  {
    if changes != [] {
      ReplayKeys(progress, changes[..|changes| - 1], fresh_);
    }
  }

  /** Members the list does not mention keep their progress; those it adds get a fresh one. */
  lemma {:induction false} ReplayKeeps(progress: ProgressMap, changes: seq<MapChange>, fresh_: ProgressView, id: U64)
    requires id in ReplayProgress(progress, changes, fresh_)
    ensures (forall c :: c in changes ==> c.id != id) ==>
      id in progress && ReplayProgress(progress, changes, fresh_)[id] == progress[id]
    ensures (exists c :: c in changes && c.id == id) ==>
      ReplayProgress(progress, changes, fresh_)[id] == fresh_
  {
    if changes != [] {
      var n := |changes| - 1;
      var front := changes[..n];
      assert changes == front + [changes[n]];
      if changes[n].id != id {
        ReplayKeeps(progress, front, fresh_, id);
        assert (exists c :: c in changes && c.id == id) ==> exists c :: c in front && c.id == id;
      }
    }
  }

  lemma ProperAppend(keys: set<U64>, changes: seq<MapChange>, c: MapChange)
    requires Proper(keys, changes)
    requires c.kind == Add <==> c.id !in Replay(keys, changes)
    ensures Proper(keys, changes + [c])
  {
    var all := changes + [c];
    forall i | 0 <= i < |all| ensures all[i].kind == Add <==> all[i].id !in Replay(keys, all[..i]) {
      if i < |changes| {
        assert all[..i] == changes[..i];
      } else {
        assert all[..i] == changes;
      }
    }
  }

  /** The tracker's progress map read as an index of acknowledgements. */
  function AcksOf(progress: ProgressMap): AckMap {
    map id | id in progress :: Ack(progress[id].matched, progress[id].commitGroupId)
  }

  /** A follower counts with what it has matched, and with its own commit group. */
  lemma AcksMean(progress: ProgressMap, v: U64, w: U64, n: int)
    ensures Reached(AcksOf(progress), v, n) <==> n <= 0 || (v in progress && progress[v].matched >= n)
    ensures Apart(AcksOf(progress), v, w) <==>
      && v in progress && w in progress && progress[v].commitGroupId != progress[w].commitGroupId
      && progress[v].commitGroupId != 0 && progress[w].commitGroupId != 0
  {
  }

  /** More than half of the voters, if there are any, have matched everything up to `n`. */
  ghost predicate MostMatched(voters: set<U64>, progress: ProgressMap, n: int) {
    voters == {} ||
    2 * |set v | v in voters && (n <= 0 || (v in progress && progress[v].matched >= n))| > |voters|
  }

  lemma MostMatchedIs(voters: set<U64>, progress: ProgressMap, n: int)
    ensures MostMatched(voters, progress, n) <==> HalfReached(voters, AcksOf(progress), n)
  {
    assert (set v | v in voters && (n <= 0 || (v in progress && progress[v].matched >= n)))
      == set v | v in voters && Reached(AcksOf(progress), v, n);
  }

  lemma JointMatched(incoming: set<U64>, outgoing: set<U64>, progress: ProgressMap, index: U64)
    requires forall n: U64 ::
      n <= index <==> HalfReached(incoming, AcksOf(progress), n) && HalfReached(outgoing, AcksOf(progress), n)
    ensures forall n: U64 :: n <= index <==> MostMatched(incoming, progress, n) && MostMatched(outgoing, progress, n)
  {
    hide MostMatched, HalfReached, AcksOf;
    forall n: U64
      ensures n <= index <==> MostMatched(incoming, progress, n) && MostMatched(outgoing, progress, n)
    {
      MostMatchedIs(incoming, progress, n);
      MostMatchedIs(outgoing, progress, n);
    }
  }

  /** More than half of the voters, if there are any, have been heard from or are the caller. */
  ghost predicate MostHeard(voters: set<U64>, progress: ProgressMap, self: U64) {
    voters == {} ||
    2 * |set v | v in voters && v in progress && (v == self || progress[v].recentActive)| > |voters|
  }

  lemma MostHeardIs(voters: set<U64>, progress: ProgressMap, self: U64)
    ensures MostHeard(voters, progress, self) <==> WinsHalf(voters, HeardFrom(progress, progress.Keys, self))
  {
    assert (set v | v in voters && v in progress && (v == self || progress[v].recentActive))
      == voters * HeardFrom(progress, progress.Keys, self);
    WinsHalfMeans(voters, HeardFrom(progress, progress.Keys, self));
  }

  /** Those of `ids` that count as active in a sweep run by `self`. */
  function HeardFrom(progress: ProgressMap, ids: set<U64>, self: U64): set<U64> {
    set id | id in ids && id in progress && (id == self || progress[id].recentActive)
  }

  lemma NobodyHeard(progress: ProgressMap, self: U64)
    ensures HeardFrom(progress, progress.Keys - progress.Keys, self) == {}
  {
  }

  lemma HeardNext(progress: ProgressMap, ids: set<U64>, id: U64, self: U64)
    requires id in progress
    ensures HeardFrom(progress, ids + {id}, self) == HeardFrom(progress, ids, self)
      + if id == self || progress[id].recentActive then {id} else {}
  {
  }

  class ProgressTracker {
    var progress: ProgressMap
    var peerIds: seq<U64>
    var conf: Conf
    var votes: Votes
    var maxInflight: nat
    var groupCommit: bool

    /** The invariant of every tracker a run can reach. */
    ghost predicate Valid()
      reads this
    {
      && conf.Strong()
      && progress.Keys == conf.Ids()
      && StrictlySorted(peerIds) && SetOf(peerIds) == conf.Ids()
    }

    constructor (maxInflight: nat)
      ensures Valid() && conf == EMPTY_CONF && progress == map[] && votes == map[]
      ensures this.maxInflight == maxInflight && !groupCommit
    {
      progress, peerIds, conf, votes := map[], [], EMPTY_CONF, map[];
      this.maxInflight, groupCommit := maxInflight, false;
    }

    /** Installs a configuration and replays the additions and removals that lead to it. */
    method ApplyConf(newConf: Conf, changes: seq<MapChange>, nextIdx: U64)
      modifies this`progress, this`peerIds, this`conf
      ensures conf == newConf
      ensures StrictlySorted(peerIds) && SetOf(peerIds) == newConf.Ids()
      ensures progress == ReplayProgress(old(progress), changes, NewProgress(nextIdx, maxInflight))
      ensures newConf.Strong() && Replay(old(progress).Keys, changes) == newConf.Ids() ==> Valid()
    {
      var ids := SortedIds(newConf);
      conf := newConf;
      peerIds := ids;
      var i := 0;
      while i < |changes|
        invariant i <= |changes| && conf == newConf && peerIds == ids
        invariant progress == ReplayProgress(old(progress), changes[..i], NewProgress(nextIdx, maxInflight))
        decreases |changes| - i
      {
        assert changes[..i + 1][..i] == changes[..i];
        if changes[i].kind == Add {
          progress := progress[changes[i].id := NewProgress(nextIdx, maxInflight)];
        } else {
          progress := progress - {changes[i].id};
        }
        i := i + 1;
      }
      assert changes[..i] == changes;
      ReplayKeys(old(progress), changes, NewProgress(nextIdx, maxInflight));
    }

    method MaxCommittedIndex() returns (r: CommitResult)
      ensures !groupCommit ==> IsJointIndex(conf.incoming, conf.outgoing, AcksOf(progress), r.index)
      ensures groupCommit ==> IsJointGroupResult(conf.incoming, conf.outgoing, AcksOf(progress), r)
      ensures Wins(conf.incoming, conf.outgoing, Ackers(conf.incoming + conf.outgoing, AcksOf(progress), r.index))
      ensures !groupCommit ==> forall n: U64 ::
        n <= r.index <==> MostMatched(conf.incoming, progress, n) && MostMatched(conf.outgoing, progress, n)
    {
      hide MostMatched, HalfReached, Commits, AcksOf, Ackers, Wins, IsJointGroupResult, IsJointIndex, HalfAcked;
      var acks := AcksOf(progress);
      r := JointCommittedIndex(conf.incoming, conf.outgoing, groupCommit, acks);
      if !groupCommit { JointMatched(conf.incoming, conf.outgoing, progress, r.index); }
      AckersWin(conf.incoming, conf.outgoing, acks, r.index);
    }

    method ResetVotes()
      modifies this`votes
      ensures votes == map[]
    {
      votes := map[];
    }

    method RecordVote(id: U64, vote: bool)
      modifies this`votes
      ensures votes == old(votes)[id := vote]
    {
      votes := votes[id := vote];
    }

    /** Votes from ids outside the configuration change nothing. */
    method VoteOutcome() returns (r: VoteResult)
      ensures r == Won <==> Wins(conf.incoming, conf.outgoing, Yes(conf.incoming + conf.outgoing, votes))
      ensures r == Lost <==> HalfLost(conf.incoming, votes) || HalfLost(conf.outgoing, votes)
    {
      r := GetJointVoteResult(conf.incoming, conf.outgoing, votes);
    }

    /** Who was heard from since the last sweep wins or loses; the sweep clears everyone but the caller. */
    method QuorumRecentlyActive(self: U64) returns (r: bool)
      modifies this`progress
      ensures r == Wins(conf.incoming, conf.outgoing, HeardFrom(old(progress), old(progress).Keys, self))
      ensures r == (MostHeard(conf.incoming, old(progress), self) && MostHeard(conf.outgoing, old(progress), self))
      ensures progress == map id | id in old(progress) :: old(progress)[id].(recentActive := id == self)
    {
      ghost var before := progress;
      hide HeardFrom, MostHeard;
      MostHeardIs(conf.incoming, progress, self);
      MostHeardIs(conf.outgoing, progress, self);
      var active: set<U64> := {};
      NobodyHeard(before, self);
      var rest := progress.Keys;
      while rest != {}
        invariant rest <= before.Keys && progress.Keys == before.Keys
        invariant active == HeardFrom(before, before.Keys - rest, self)
        invariant forall id :: id in before ==>
          progress[id] == if id in rest then before[id] else before[id].(recentActive := id == self)
        decreases rest
      {
        var id :| id in rest;
        HeardNext(before, before.Keys - rest, id, self);
        assert before.Keys - (rest - {id}) == before.Keys - rest + {id};
        rest := rest - {id};
        if id == self {
          active := active + {id};
          progress := progress[id := progress[id].(recentActive := true)];
        } else if progress[id].recentActive {
          active := active + {id};
          progress := progress[id := progress[id].(recentActive := false)];
        }
      }
      assert before.Keys - rest == before.Keys;
      r := HasQuorum(conf.incoming, conf.outgoing, active);
    }
  }

  /** All member ids, ascending and each once. */
  method SortedIds(c: Conf) returns (ids: seq<U64>)
    ensures StrictlySorted(ids) && SetOf(ids) == c.Ids()
  {
    var a := ListKeys(c.incoming);
    var b := ListKeys(c.outgoing);
    var d := ListKeys(c.learners);
    var e := ListKeys(c.learnersNext);
    var all := a + b + d + e;
    SetOfAppend(a, b);
    SetOfAppend(a + b, d);
    SetOfAppend(a + b + d, e);
    ids := SortAndSqueeze(all);
  }
}

/** Majority and joint quorums: vote tallies and commit indices. */
module Quorum {
  import opened Common
  import opened Sorting

  function Majority(total: nat): nat { total / 2 + 1 }

  // ----- Votes ---------------------------------------------------------------------------------

  datatype VoteResult = Pending | Lost | Won

  /** Recorded votes; a voter without an entry has not answered. */
  type Votes = map<U64, bool>

  function Yes(voters: set<U64>, votes: Votes): set<U64> {
    set v | v in voters && v in votes && votes[v]
  }

  function Missing(voters: set<U64>, votes: Votes): set<U64> {
    set v | v in voters && v !in votes
  }

  /** `agreed` alone decides this half: it holds a majority, or there is nobody to ask. */
  ghost predicate WinsHalf(voters: set<U64>, agreed: set<U64>) {
    voters == {} || |voters * agreed| >= Majority(|voters|)
  }

  ghost predicate Wins(incoming: set<U64>, outgoing: set<U64>, agreed: set<U64>) {
    WinsHalf(incoming, agreed) && WinsHalf(outgoing, agreed)
  }

  /** A half is lost once even the missing votes could not make up a majority. */
  ghost predicate HalfLost(voters: set<U64>, votes: Votes) {
    voters != {} && |Yes(voters, votes)| + |Missing(voters, votes)| < Majority(|voters|)
  }

  /** Winning a half means that more than half of it agree. */
  lemma WinsHalfMeans(voters: set<U64>, agreed: set<U64>)
    ensures WinsHalf(voters, agreed) <==> voters == {} || 2 * |voters * agreed| > |voters|
  {
  }

  /** Losing one means that at most half of it said yes or has not answered. */
  lemma HalfLostMeans(voters: set<U64>, votes: Votes)
    ensures HalfLost(voters, votes) <==>
      voters != {} && 2 * |set v | v in voters && (v in votes ==> votes[v])| <= |voters|
  {
    var open := set v | v in voters && (v in votes ==> votes[v]);
    assert open == Yes(voters, votes) + Missing(voters, votes);
    assert Yes(voters, votes) !! Missing(voters, votes);
  }

  method GetVoteResult(voters: set<U64>, votes: Votes) returns (r: VoteResult)
    ensures r == Won <==> WinsHalf(voters, Yes(voters, votes))
    ensures r == Lost <==> HalfLost(voters, votes)
    ensures r == Won <==> voters == {} || 2 * |set v | v in voters && v in votes && votes[v]| > |voters|
    ensures r == Lost <==> voters != {} && 2 * |set v | v in voters && (v in votes ==> votes[v])| <= |voters|
  {
    HalfLostMeans(voters, votes);
    WinsHalfMeans(voters, Yes(voters, votes));
    YesOfHalf(voters, voters, votes);
    assert Yes(voters, votes) == set v | v in voters && v in votes && votes[v];
    if voters == {} { return Won; }
    var yes, missing := 0, 0;
    var rest := voters;
    while rest != {}
      invariant rest <= voters
      invariant yes == |Yes(voters - rest, votes)|
      invariant missing == |Missing(voters - rest, votes)|
      decreases rest
    {
      var k :| k in rest;
      ghost var seen := voters - rest;
      TallyStep(seen, k, votes);
      rest := rest - {k};
      assert voters - rest == seen + {k};
      if k !in votes {
        missing := missing + 1;
      } else if votes[k] {
        yes := yes + 1;
      }
    }
    assert voters - rest == voters;
    YesOfHalf(voters, voters, votes);
    var q := Majority(|voters|);
    if yes >= q { return Won; }
    if yes + missing >= q { return Pending; }
    return Lost;
  }

  lemma TallyStep(seen: set<U64>, k: U64, votes: Votes)
    requires k !in seen
    ensures |Yes(seen + {k}, votes)| == |Yes(seen, votes)| + if k in votes && votes[k] then 1 else 0
    ensures |Missing(seen + {k}, votes)| == |Missing(seen, votes)| + if k in votes then 0 else 1
  {
    if k in votes && votes[k] {
      assert Yes(seen + {k}, votes) == Yes(seen, votes) + {k};
    } else {
      assert Yes(seen + {k}, votes) == Yes(seen, votes);
    }
    if k in votes {
      assert Missing(seen + {k}, votes) == Missing(seen, votes);
    } else {
      assert Missing(seen + {k}, votes) == Missing(seen, votes) + {k};
    }
  }

  method GetJointVoteResult(incoming: set<U64>, outgoing: set<U64>, votes: Votes) returns (r: VoteResult)
    ensures r == Won <==> Wins(incoming, outgoing, Yes(incoming + outgoing, votes))
    ensures r == Lost <==> HalfLost(incoming, votes) || HalfLost(outgoing, votes)
  {
    var i := GetVoteResult(incoming, votes);
    var o := GetVoteResult(outgoing, votes);
    YesOfHalf(incoming, incoming + outgoing, votes);
    YesOfHalf(outgoing, incoming + outgoing, votes);
    NotBoth(incoming, votes);
    NotBoth(outgoing, votes);
    if i == Won && o == Won { return Won; }
    if i == Lost || o == Lost { return Lost; }
    return Pending;
  }

  /** `hasQuorum`: everyone in `potential` says yes, everyone else says no. */
  method HasQuorum(incoming: set<U64>, outgoing: set<U64>, potential: set<U64>) returns (r: bool)
    ensures r == Wins(incoming, outgoing, potential)
  {
    var votes := map v | v in incoming + outgoing :: v in potential;
    var v := GetJointVoteResult(incoming, outgoing, votes);
    assert incoming * Yes(incoming + outgoing, votes) == incoming * potential;
    assert outgoing * Yes(incoming + outgoing, votes) == outgoing * potential;
    r := v == Won;
  }

  lemma YesOfHalf(voters: set<U64>, all: set<U64>, votes: Votes)
    requires voters <= all
    ensures voters * Yes(all, votes) == Yes(voters, votes)
    ensures voters * Yes(voters, votes) == Yes(voters, votes)
  {
  }

  lemma NotBoth(voters: set<U64>, votes: Votes)
    ensures WinsHalf(voters, Yes(voters, votes)) ==> !HalfLost(voters, votes)
  {
    YesOfHalf(voters, voters, votes);
  }

  /** `later` keeps every vote already cast. */
  ghost predicate Extends(now: Votes, later: Votes) {
    forall v :: v in now ==> v in later && later[v] == now[v]
  }

  /**
   * What a tally means: it is won exactly when every way the remaining votes can fall wins, and
   * lost exactly when none does; a pending tally can still go either way.
   */
  lemma TallyDecides(incoming: set<U64>, outgoing: set<U64>, votes: Votes)
    ensures Wins(incoming, outgoing, Yes(incoming + outgoing, votes)) <==>
      forall later :: Extends(votes, later) ==> Wins(incoming, outgoing, Yes(incoming + outgoing, later))
    ensures HalfLost(incoming, votes) || HalfLost(outgoing, votes) <==>
      forall later :: Extends(votes, later) ==> !Wins(incoming, outgoing, Yes(incoming + outgoing, later))
  {
    var all := incoming + outgoing;
    assert Extends(votes, votes);
    forall later | Extends(votes, later)
      ensures Wins(incoming, outgoing, Yes(all, votes)) ==> Wins(incoming, outgoing, Yes(all, later))
      ensures HalfLost(incoming, votes) || HalfLost(outgoing, votes) ==> !Wins(incoming, outgoing, Yes(all, later))
    {
      HalfMoves(incoming, all, votes, later);
      HalfMoves(outgoing, all, votes, later);
    }
    var hopeful := votes + map v | v in Missing(all, votes) :: true;
    HopefulWins(incoming, all, votes);
    HopefulWins(outgoing, all, votes);
    assert Extends(votes, hopeful);
  }

  lemma HalfMoves(voters: set<U64>, all: set<U64>, votes: Votes, later: Votes)
    requires voters <= all && Extends(votes, later)
    ensures WinsHalf(voters, Yes(all, votes)) ==> WinsHalf(voters, Yes(all, later))
    ensures HalfLost(voters, votes) ==> !WinsHalf(voters, Yes(all, later))
  {
    YesOfHalf(voters, all, later);
    YesOfHalf(voters, all, votes);
    SubsetCardinality(Yes(voters, votes), Yes(voters, later));
    SubsetCardinality(Yes(voters, later), Yes(voters, votes) + Missing(voters, votes));
  }

  lemma HopefulWins(voters: set<U64>, all: set<U64>, votes: Votes)
    requires voters <= all
    ensures !HalfLost(voters, votes) ==>
      WinsHalf(voters, Yes(all, votes + map v | v in Missing(all, votes) :: true))
  {
    var hopeful := votes + map v | v in Missing(all, votes) :: true;
    assert voters * Yes(all, hopeful) == Yes(voters, votes) + Missing(voters, votes);
    assert Yes(voters, votes) !! Missing(voters, votes);
  }

  // ----- Overlap -------------------------------------------------------------------------------

  /** Voter sets differing in at most one member: majorities of both always share a voter. */
  lemma HalvesOverlap(v: set<U64>, w: set<U64>, a: set<U64>, b: set<U64>) returns (x: U64)
    requires v != {} && w != {}
    requires |(v - w) + (w - v)| <= 1
    requires WinsHalf(v, a) && WinsHalf(w, b)
    ensures x in v && x in a && x in w && x in b
  {
    UnionSplit(v, w);
    Pigeonhole(v + w, v * a, w * b);
    x :| x in v * a && x in w * b;
  }

  lemma UnionSplit(v: set<U64>, w: set<U64>)
    ensures |v| == |v * w| + |v - w| && |w| == |v * w| + |w - v|
    ensures |(v - w) + (w - v)| == |v - w| + |w - v|
    ensures |v + w| == |v * w| + |v - w| + |w - v|
  {
    assert v == v * w + (v - w);
    assert w == v * w + (w - v);
    assert v + w == v + (w - v);
  }

  // ----- Commit index --------------------------------------------------------------------------

  /** The `Index` record: how far a voter has acknowledged, and the commit group it belongs to. */
  datatype Ack = Ack(index: U64, groupId: U64)

  type AckMap = map<U64, Ack>

  datatype CommitResult = CommitResult(index: U64, useGroupCommit: bool)

  function AckOf(acks: AckMap, voter: U64): Ack {
    if voter in acks then acks[voter] else Ack(0, 0)
  }

  function Ackers(voters: set<U64>, acks: AckMap, n: int): set<U64> {
    set v | v in voters && AckOf(acks, v).index >= n
  }

  ghost predicate QuorumAcked(voters: set<U64>, acks: AckMap, n: int) {
    |Ackers(voters, acks, n)| >= Majority(|voters|)
  }

  /** The voter has acknowledged everything up to `n`. */
  ghost predicate Reached(acks: AckMap, v: U64, n: int) { n <= 0 || (v in acks && acks[v].index >= n) }

  ghost predicate MostReached(voters: set<U64>, acks: AckMap, n: int) {
    2 * |set v | v in voters && Reached(acks, v, n)| > |voters|
  }

  ghost predicate AllReached(voters: set<U64>, acks: AckMap, n: int) {
    forall v :: v in voters ==> Reached(acks, v, n)
  }

  ghost predicate Apart(acks: AckMap, v: U64, w: U64) {
    && v in acks && w in acks && acks[v].groupId != 0 && acks[w].groupId != 0
    && acks[v].groupId != acks[w].groupId
  }

  /** Two voters of different non-zero groups have. */
  ghost predicate GroupsReached(voters: set<U64>, acks: AckMap, n: int) {
    exists v, w :: v in voters && w in voters && Reached(acks, v, n) && Reached(acks, w, n) && Apart(acks, v, w)
  }

  /** What a commit index answers, told by the indices it lets commit. */
  ghost predicate Commits(voters: set<U64>, useGroupCommit: bool, acks: AckMap, r: CommitResult) {
    if voters == {} then r == CommitResult(MAX_U64, false)
    else if useGroupCommit && GroupsReached(voters, acks, 0) then
      r.useGroupCommit && forall n :: n <= r.index <==> MostReached(voters, acks, n) && GroupsReached(voters, acks, n)
    else if useGroupCommit && exists v :: v in voters && (v in acks ==> acks[v].groupId == 0) then
      !r.useGroupCommit && forall n :: n <= r.index <==> AllReached(voters, acks, n)
    else !r.useGroupCommit && forall n :: n <= r.index <==> MostReached(voters, acks, n)
  }

  lemma QuorumAckedMeans(voters: set<U64>, acks: AckMap, n: int)
    ensures QuorumAcked(voters, acks, n) <==> MostReached(voters, acks, n)
    ensures TwoGroupsAcked(voters, acks, n) <==> GroupsReached(voters, acks, n)
  {
    assert Ackers(voters, acks, n) == set v | v in voters && Reached(acks, v, n);
    if TwoGroupsAcked(voters, acks, n) {
      var v, w :| v in Ackers(voters, acks, n) && w in Ackers(voters, acks, n)
        && AckOf(acks, v).groupId != 0 && AckOf(acks, w).groupId != 0
        && AckOf(acks, v).groupId != AckOf(acks, w).groupId;
      assert Reached(acks, v, n) && Reached(acks, w, n);
    }
    if GroupsReached(voters, acks, n) {
      var v, w :| v in voters && w in voters && Reached(acks, v, n) && Reached(acks, w, n)
        && Apart(acks, v, w);
      assert v in Ackers(voters, acks, n) && w in Ackers(voters, acks, n);
    }
  }

  /** `n` has been acknowledged by two voters of different non-zero groups. */
  ghost predicate TwoGroupsAcked(voters: set<U64>, acks: AckMap, n: int) {
    exists v, w :: v in Ackers(voters, acks, n) && w in Ackers(voters, acks, n)
      && AckOf(acks, v).groupId != 0 && AckOf(acks, w).groupId != 0
      && AckOf(acks, v).groupId != AckOf(acks, w).groupId
  }

  ghost predicate IsQuorumIndex(voters: set<U64>, acks: AckMap, n: int) {
    QuorumAcked(voters, acks, n) && forall m :: m > n ==> !QuorumAcked(voters, acks, m)
  }

  ghost predicate IsGroupIndex(voters: set<U64>, acks: AckMap, n: int) {
    && QuorumAcked(voters, acks, n) && TwoGroupsAcked(voters, acks, n)
    && forall m :: m > n ==> !(QuorumAcked(voters, acks, m) && TwoGroupsAcked(voters, acks, m))
  }

  ghost predicate IsMinAck(voters: set<U64>, acks: AckMap, n: int) {
    && (exists v :: v in voters && AckOf(acks, v).index == n)
    && forall v :: v in voters ==> AckOf(acks, v).index >= n
  }

  ghost predicate AllGrouped(voters: set<U64>, acks: AckMap) {
    forall v :: v in voters ==> AckOf(acks, v).groupId != 0
  }

  /** What one majority's commit index is, with no mention of how the acks are ordered. */
  ghost predicate IsCommitResult(voters: set<U64>, useGroupCommit: bool, acks: AckMap, r: CommitResult) {
    if voters == {} then r == CommitResult(MAX_U64, false)
    else if !useGroupCommit then !r.useGroupCommit && IsQuorumIndex(voters, acks, r.index)
    else if TwoGroupsAcked(voters, acks, 0) then r.useGroupCommit && IsGroupIndex(voters, acks, r.index)
    else if AllGrouped(voters, acks) then !r.useGroupCommit && IsQuorumIndex(voters, acks, r.index)
    else !r.useGroupCommit && IsMinAck(voters, acks, r.index)
  }

  lemma FewerReach(voters: set<U64>, acks: AckMap, n: int, m: int)
    requires n <= m
    ensures MostReached(voters, acks, m) ==> MostReached(voters, acks, n)
    ensures GroupsReached(voters, acks, m) ==> GroupsReached(voters, acks, n)
  {
    SubsetCardinality(set v | v in voters && Reached(acks, v, m), set v | v in voters && Reached(acks, v, n));
    if GroupsReached(voters, acks, m) {
      var v, w :| v in voters && w in voters && Reached(acks, v, m) && Reached(acks, w, m)
        && Apart(acks, v, w);
      assert Reached(acks, v, n) && Reached(acks, w, n);
    }
  }

  /** The described result lets commit exactly what more than half, or more than half and two groups, or all have. */
  lemma CommitMeans(voters: set<U64>, useGroupCommit: bool, acks: AckMap, r: CommitResult)
    requires IsCommitResult(voters, useGroupCommit, acks, r)
    ensures Commits(voters, useGroupCommit, acks, r)
  {
    forall n
      ensures QuorumAcked(voters, acks, n) <==> MostReached(voters, acks, n)
      ensures TwoGroupsAcked(voters, acks, n) <==> GroupsReached(voters, acks, n)
      ensures n <= r.index && MostReached(voters, acks, r.index) ==> MostReached(voters, acks, n)
      ensures n <= r.index && GroupsReached(voters, acks, r.index) ==> GroupsReached(voters, acks, n)
    {
      QuorumAckedMeans(voters, acks, n);
      if n <= r.index { FewerReach(voters, acks, n, r.index); }
    }
    hide MostReached, GroupsReached, QuorumAcked, TwoGroupsAcked;
    if IsMinAck(voters, acks, r.index) { MinReached(voters, acks, r.index); }
  }

  lemma MinReached(voters: set<U64>, acks: AckMap, least: U64)
    requires IsMinAck(voters, acks, least)
    ensures forall n :: n <= least <==> AllReached(voters, acks, n)
  {
    var low :| low in voters && AckOf(acks, low).index == least;
    forall n | AllReached(voters, acks, n) ensures n <= least {
      assert Reached(acks, low, n);
    }
  }

  /** The answer is a function of the voters and their acks: no iteration order or tie can change it. */
  lemma CommitResultUnique(voters: set<U64>, useGroupCommit: bool, acks: AckMap, r: CommitResult, s: CommitResult)
    requires IsCommitResult(voters, useGroupCommit, acks, r)
    requires IsCommitResult(voters, useGroupCommit, acks, s)
    ensures r == s
  {
    if voters != {} {
      if r.index < s.index || s.index < r.index {
        assert false;
      }
    }
  }

  function CountAtLeast(s: seq<Ack>, n: int): nat {
    if s == [] then 0 else (if s[0].index >= n then 1 else 0) + CountAtLeast(s[1..], n)
  }

  lemma {:induction false} CountSplit(s: seq<Ack>, t: seq<Ack>, n: int)
    ensures CountAtLeast(s + t, n) == CountAtLeast(s, n) + CountAtLeast(t, n)
  {
    if s == [] {
      assert s + t == t;
    } else {
      assert (s + t)[1..] == s[1..] + t;
      CountSplit(s[1..], t, n);
    }
  }

  lemma CountRemove(t: seq<Ack>, k: nat, n: int)
    requires k < |t|
    ensures CountAtLeast(t, n) == (if t[k].index >= n then 1 else 0) + CountAtLeast(t[..k] + t[k + 1..], n)
  {
    var tail := t[k..];
    assert t == t[..k] + tail && tail[1..] == t[k + 1..];
    CountSplit(t[..k], tail, n);
    CountSplit(t[..k], t[k + 1..], n);
  }

  lemma {:induction false} CountPermutation(s: seq<Ack>, t: seq<Ack>, n: int)
    requires multiset(s) == multiset(t)
    ensures CountAtLeast(s, n) == CountAtLeast(t, n)
  {
    if s == [] {
      assert |multiset(t)| == 0;
    } else {
      var k := FindFirst(s, t);
      CountPermutation(s[1..], t[..k] + t[k + 1..], n);
      CountRemove(t, k, n);
    }
  }

  lemma FindFirst(s: seq<Ack>, t: seq<Ack>) returns (k: nat)
    requires s != [] && multiset(s) == multiset(t)
    ensures k < |t| && t[k] == s[0] && multiset(s[1..]) == multiset(t[..k] + t[k + 1..])
  {
    FirstCounted(s);
    k := Position(t, s[0]);
    RemoveOne(t, k);
  }

  lemma FirstCounted(s: seq<Ack>)
    requires s != []
    ensures s[0] in multiset(s) && multiset(s[1..]) == multiset(s) - multiset{s[0]}
  {
    assert s == [s[0]] + s[1..];
    assert multiset(s) == multiset{s[0]} + multiset(s[1..]);
  }

  lemma Position(t: seq<Ack>, a: Ack) returns (k: nat)
    requires a in multiset(t)
    ensures k < |t| && t[k] == a
  {
    k :| 0 <= k < |t| && t[k] == a;
  }

  lemma RemoveOne(t: seq<Ack>, k: nat)
    requires k < |t|
    ensures multiset(t[..k] + t[k + 1..]) == multiset(t) - multiset{t[k]}
  {
    assert t == t[..k] + [t[k]] + t[k + 1..];
    assert multiset(t) == multiset(t[..k]) + multiset{t[k]} + multiset(t[k + 1..]);
  }

  ghost predicate Descending(s: seq<Ack>) {
    forall i, j :: 0 <= i < j < |s| ==> s[i].index >= s[j].index
  }

  /** In a descending list the first `k` entries are the ones that matter for any threshold. */
  lemma {:induction false} CountDescending(s: seq<Ack>, k: nat, n: int)
    requires Descending(s) && k < |s|
    ensures n <= s[k].index ==> CountAtLeast(s, n) >= k + 1
    ensures n > s[k].index ==> CountAtLeast(s, n) <= k
  {
    if n <= s[k].index {
      var front, back := s[..k + 1], s[k + 1..];
      assert s == front + back;
      CountSplit(front, back, n);
      CountAll(front, n);
    } else {
      var front, back := s[..k], s[k..];
      assert s == front + back;
      CountSplit(front, back, n);
      CountBound(front, n);
      CountNone(back, n);
    }
  }

  lemma {:induction false} CountBound(s: seq<Ack>, n: int)
    ensures CountAtLeast(s, n) <= |s|
  {
    if s != [] { CountBound(s[1..], n); }
  }

  lemma {:induction false} CountAll(s: seq<Ack>, n: int)
    requires forall i :: 0 <= i < |s| ==> s[i].index >= n
    ensures CountAtLeast(s, n) == |s|
  {
    if s != [] { CountAll(s[1..], n); }
  }

  lemma {:induction false} CountNone(s: seq<Ack>, n: int)
    requires forall i :: 0 <= i < |s| ==> s[i].index < n
    ensures CountAtLeast(s, n) == 0
  {
    if s != [] { CountNone(s[1..], n); }
  }

  /** Counting acks along any enumeration of the voters counts the ackers. */
  lemma {:induction false} CountIsCardinality(ids: seq<U64>, acks: AckMap, n: int)
    requires Distinct(ids)
    ensures CountAtLeast(AcksAlong(ids, acks), n) == |Ackers(SetOf(ids), acks, n)|
  {
    if ids == [] {
      assert Ackers(SetOf(ids), acks, n) == {};
    } else {
      var rest := ids[1..];
      CountIsCardinality(rest, acks, n);
      assert AcksAlong(ids, acks)[1..] == AcksAlong(rest, acks);
      AckersOfCons(ids, acks, n);
    }
  }

  lemma AckersOfCons(ids: seq<U64>, acks: AckMap, n: int)
    requires ids != [] && Distinct(ids)
    ensures |Ackers(SetOf(ids), acks, n)| ==
      (if AckOf(acks, ids[0]).index >= n then 1 else 0) + |Ackers(SetOf(ids[1..]), acks, n)|
  {
    assert ids == [ids[0]] + ids[1..];
    SetOfAppend([ids[0]], ids[1..]);
    assert SetOf([ids[0]]) == {ids[0]};
    AckersAdd(ids[0], SetOf(ids[1..]), acks, n);
  }

  lemma AckersAdd(v: U64, rest: set<U64>, acks: AckMap, n: int)
    requires v !in rest
    ensures |Ackers({v} + rest, acks, n)| ==
      (if AckOf(acks, v).index >= n then 1 else 0) + |Ackers(rest, acks, n)|
  {
    if AckOf(acks, v).index >= n {
      assert Ackers({v} + rest, acks, n) == {v} + Ackers(rest, acks, n);
    } else {
      assert Ackers({v} + rest, acks, n) == Ackers(rest, acks, n);
    }
  }

  function AcksAlong(ids: seq<U64>, acks: AckMap): (r: seq<Ack>)
    ensures |r| == |ids|
  {
    seq(|ids|, i requires 0 <= i < |ids| => AckOf(acks, ids[i]))
  }

  /** `s` lists the voters' acks, in any order, each voter once. */
  ghost predicate Lists(s: seq<Ack>, voters: set<U64>, acks: AckMap) {
    && |s| == |voters|
    && (forall v :: v in voters ==> AckOf(acks, v) in s)
    && (forall a :: a in s ==> exists v :: v in voters && AckOf(acks, v) == a)
    && (forall n :: CountAtLeast(s, n) == |Ackers(voters, acks, n)|)
  }

  lemma ListsAnyOrder(ids: seq<U64>, s: seq<Ack>, voters: set<U64>, acks: AckMap)
    requires Distinct(ids) && SetOf(ids) == voters
    requires multiset(s) == multiset(AcksAlong(ids, acks))
    ensures Lists(s, voters, acks)
  {
    var along := AcksAlong(ids, acks);
    PermutationElements(s, along);
    DistinctCardinality(ids);
    forall v | v in voters ensures AckOf(acks, v) in s {
      var i :| 0 <= i < |ids| && ids[i] == v;
      assert along[i] == AckOf(acks, v);
      assert along[i] in SetOf(along);
    }
    forall a | a in s ensures exists v :: v in voters && AckOf(acks, v) == a {
      assert a in SetOf(along);
      var i :| 0 <= i < |along| && along[i] == a;
      assert ids[i] in SetOf(ids);
    }
    forall n ensures CountAtLeast(s, n) == |Ackers(voters, acks, n)| {
      CountPermutation(s, along, n);
      CountIsCardinality(ids, acks, n);
    }
  }

  lemma QuorumPosition(s: seq<Ack>, voters: set<U64>, acks: AckMap)
    requires voters != {} && Lists(s, voters, acks) && Descending(s)
    ensures 0 <= Majority(|s|) - 1 < |s|
    ensures IsQuorumIndex(voters, acks, s[Majority(|s|) - 1].index)
    ensures forall n :: n <= s[Majority(|s|) - 1].index ==> QuorumAcked(voters, acks, n)
  {
    var k := Majority(|s|) - 1;
    forall n ensures n <= s[k].index <==> QuorumAcked(voters, acks, n) {
      CountDescending(s, k, n);
    }
  }

  lemma TwoGroupsFrom(a: Ack, b: Ack, s: seq<Ack>, voters: set<U64>, acks: AckMap)
    requires Lists(s, voters, acks) && a in s && b in s
    requires a.groupId != 0 && b.groupId != 0 && a.groupId != b.groupId
    ensures forall n :: n <= a.index && n <= b.index ==> TwoGroupsAcked(voters, acks, n)
  {
    var v :| v in voters && AckOf(acks, v) == a;
    var w :| w in voters && AckOf(acks, w) == b;
    forall n | n <= a.index && n <= b.index ensures TwoGroupsAcked(voters, acks, n) {
      assert v in Ackers(voters, acks, n) && w in Ackers(voters, acks, n);
    }
  }

  /** If everything before position `k` is ungrouped or in group `g`, no two groups meet above `s[k]`. */
  lemma OneGroupAbove(s: seq<Ack>, k: nat, g: U64, voters: set<U64>, acks: AckMap, n: int)
    requires Lists(s, voters, acks) && Descending(s) && k <= |s|
    requires forall i :: 0 <= i < k ==> s[i].groupId == 0 || s[i].groupId == g
    requires k < |s| ==> n > s[k].index
    ensures !TwoGroupsAcked(voters, acks, n)
  {
    forall v | v in Ackers(voters, acks, n) ensures AckOf(acks, v).groupId in {0, g} {
      var i :| 0 <= i < |s| && s[i] == AckOf(acks, v);
      assert i < k;
    }
  }

  /** Sort key that puts the highest index first. */
  function Highest(a: Ack): int { -(a.index as int) }

  /** The filled and sorted `matched` array. */
  method SortedAcks(voters: set<U64>, acks: AckMap) returns (matched: array<Ack>)
    ensures fresh(matched)
    ensures Lists(matched[..], voters, acks) && Descending(matched[..])
  {
    var ids := CollectKeys(voters);
    ghost var order := ids[..];
    matched := new Ack[ids.Length];
    for i := 0 to ids.Length
      invariant ids[..] == order
      invariant forall j :: 0 <= j < i ==> matched[j] == AckOf(acks, order[j])
    {
      matched[i] := AckOf(acks, ids[i]);
    }
    assert matched[..] == AcksAlong(order, acks);
    Sort(matched, Highest);
    ListsAnyOrder(order, matched[..], voters, acks);
    forall i, j | 0 <= i < j < matched.Length ensures matched[i].index >= matched[j].index {
      assert Highest(matched[..][i]) <= Highest(matched[..][j]);
    }
  }

  method CommittedIndex(voters: set<U64>, useGroupCommit: bool, acks: AckMap) returns (r: CommitResult)
    ensures IsCommitResult(voters, useGroupCommit, acks, r) && Commits(voters, useGroupCommit, acks, r)
  {
    hide Commits;
    if voters == {} {
      r := CommitResult(MAX_U64, false);
      CommitMeans(voters, useGroupCommit, acks, r);
      return;
    }

    var matched := SortedAcks(voters, acks);
    var s := matched[..];
    QuorumPosition(s, voters, acks);

    var quorum := Majority(|s|);
    var quorumIndex := s[quorum - 1];
    if !useGroupCommit {
      r := CommitResult(quorumIndex.index, false);
      CommitMeans(voters, useGroupCommit, acks, r);
      return;
    }

    r := ScanGroups(s, quorumIndex, voters, acks);
    CommitMeans(voters, useGroupCommit, acks, r);
  }

  /** The group-commit scan down the sorted acks, from the group of the quorum's ack. */
  method ScanGroups(s: seq<Ack>, quorumIndex: Ack, ghost voters: set<U64>, ghost acks: AckMap)
    returns (r: CommitResult)
    requires voters != {} && Lists(s, voters, acks) && Descending(s)
    requires quorumIndex in s && IsQuorumIndex(voters, acks, quorumIndex.index)
    requires forall n :: n <= quorumIndex.index ==> QuorumAcked(voters, acks, n)
    ensures IsCommitResult(voters, true, acks, r)
  {
    assert s != [];
    hide Lists, IsQuorumIndex, IsGroupIndex, IsMinAck, QuorumAcked, TwoGroupsAcked, AllGrouped;
    var checked := quorumIndex.groupId;
    var singleGroup := true;
    ghost var seen := quorumIndex;  // an ack of the group in `checked`
    for k := 0 to |s|
      invariant singleGroup <==> forall i :: 0 <= i < k ==> s[i].groupId != 0
      invariant forall i :: 0 <= i < k ==> s[i].groupId == 0 || s[i].groupId == checked
      invariant seen in s && seen.groupId == checked
      invariant k < |s| ==> seen.index >= Min(s[k].index, quorumIndex.index)
    {
      var m := s[k];
      if m.groupId == 0 {
        singleGroup := false;
      } else if checked == 0 {
        checked := m.groupId;
        seen := m;
      } else if checked != m.groupId {
        GroupIndexFound(s, k, seen, quorumIndex, voters, acks);
        return CommitResult(Min(m.index, quorumIndex.index), true);
      }
    }
    NoSecondGroup(s, checked, voters, acks);
    if singleGroup {
      return CommitResult(quorumIndex.index, false);
    }
    return CommitResult(s[|s| - 1].index, false);
  }

  /** A scan that met at most one group: either everyone is in it, or someone is ungrouped. */
  lemma NoSecondGroup(s: seq<Ack>, g: U64, voters: set<U64>, acks: AckMap)
    requires voters != {} && Lists(s, voters, acks) && Descending(s) && s != []
    requires forall i :: 0 <= i < |s| ==> s[i].groupId == 0 || s[i].groupId == g
    ensures !TwoGroupsAcked(voters, acks, 0)
    ensures AllGrouped(voters, acks) <==> forall i :: 0 <= i < |s| ==> s[i].groupId != 0
    ensures !AllGrouped(voters, acks) ==> IsMinAck(voters, acks, s[|s| - 1].index)
  {
    OneGroupAbove(s, |s|, g, voters, acks, 0);
    if forall i :: 0 <= i < |s| ==> s[i].groupId != 0 {
      forall v | v in voters ensures AckOf(acks, v).groupId != 0 {
        assert AckOf(acks, v) in s;
      }
    } else {
      LastIsMin(s, voters, acks);
    }
  }

  lemma LastIsMin(s: seq<Ack>, voters: set<U64>, acks: AckMap)
    requires voters != {} && Lists(s, voters, acks) && Descending(s) && s != []
    requires exists i :: 0 <= i < |s| && s[i].groupId == 0
    ensures IsMinAck(voters, acks, s[|s| - 1].index) && !AllGrouped(voters, acks)
  {
    forall v | v in voters ensures AckOf(acks, v).index >= s[|s| - 1].index {
      var i :| 0 <= i < |s| && s[i] == AckOf(acks, v);
    }
    assert s[|s| - 1] in s;
    var i :| 0 <= i < |s| && s[i].groupId == 0;
    assert s[i] in s;
  }

  lemma GroupIndexFound(s: seq<Ack>, k: nat, seen: Ack, q: Ack, voters: set<U64>, acks: AckMap)
    requires voters != {} && Lists(s, voters, acks) && Descending(s) && k < |s|
    requires q in s && IsQuorumIndex(voters, acks, q.index)
    requires forall n :: n <= q.index ==> QuorumAcked(voters, acks, n)
    requires seen in s && seen.groupId != 0 && seen.index >= Min(s[k].index, q.index)
    requires s[k].groupId != 0 && s[k].groupId != seen.groupId
    requires forall i :: 0 <= i < k ==> s[i].groupId == 0 || s[i].groupId == seen.groupId
    ensures TwoGroupsAcked(voters, acks, 0)
    ensures IsGroupIndex(voters, acks, Min(s[k].index, q.index))
  {
    var n := Min(s[k].index, q.index);
    TwoGroupsFrom(seen, s[k], s, voters, acks);
    forall m | m > n ensures !(QuorumAcked(voters, acks, m) && TwoGroupsAcked(voters, acks, m)) {
      if m > s[k].index {
        OneGroupAbove(s, k, seen.groupId, voters, acks, m);
      }
    }
  }

  // ----- Joint commit index --------------------------------------------------------------------

  ghost predicate HalfAcked(voters: set<U64>, acks: AckMap, n: int) {
    voters == {} || QuorumAcked(voters, acks, n)
  }

  ghost predicate HalfReached(voters: set<U64>, acks: AckMap, n: int) {
    voters == {} || MostReached(voters, acks, n)
  }

  /** The greatest 64-bit index that a majority of each non-empty half has acknowledged. */
  ghost predicate IsJointIndex(incoming: set<U64>, outgoing: set<U64>, acks: AckMap, n: U64) {
    && HalfAcked(incoming, acks, n) && HalfAcked(outgoing, acks, n)
    && forall m: U64 :: m > n ==> !(HalfAcked(incoming, acks, m) && HalfAcked(outgoing, acks, m))
  }

  /** With group commit the smaller half's answer stands, and both halves must have spanned groups. */
  ghost predicate IsJointGroupResult(incoming: set<U64>, outgoing: set<U64>, acks: AckMap, r: CommitResult) {
    exists i, o ::
      && IsCommitResult(incoming, true, acks, i) && IsCommitResult(outgoing, true, acks, o)
      && r == CommitResult(Min(i.index, o.index), i.useGroupCommit && o.useGroupCommit)
  }

  method JointCommittedIndex(incoming: set<U64>, outgoing: set<U64>, useGroupCommit: bool, acks: AckMap)
    returns (r: CommitResult)
    ensures !useGroupCommit ==> IsJointIndex(incoming, outgoing, acks, r.index) && !r.useGroupCommit
    ensures useGroupCommit ==> IsJointGroupResult(incoming, outgoing, acks, r)
    ensures HalfAcked(incoming, acks, r.index) && HalfAcked(outgoing, acks, r.index)
    ensures !useGroupCommit ==>
      forall n: U64 :: n <= r.index <==> HalfReached(incoming, acks, n) && HalfReached(outgoing, acks, n)
    ensures exists i, o ::
      && Commits(incoming, useGroupCommit, acks, i) && Commits(outgoing, useGroupCommit, acks, o)
      && r == CommitResult(Min(i.index, o.index), i.useGroupCommit && o.useGroupCommit)
  {
    var i := CommittedIndex(incoming, useGroupCommit, acks);
    var o := CommittedIndex(outgoing, useGroupCommit, acks);
    r := CommitResult(Min(i.index, o.index), i.useGroupCommit && o.useGroupCommit);
    CommitIsAcked(incoming, useGroupCommit, acks, i, r.index);
    CommitIsAcked(outgoing, useGroupCommit, acks, o, r.index);
  }

  lemma AckersShrink(voters: set<U64>, acks: AckMap, n: int, m: int)
    requires n <= m
    ensures |Ackers(voters, acks, m)| <= |Ackers(voters, acks, n)|
  {
    SubsetCardinality(Ackers(voters, acks, m), Ackers(voters, acks, n));
  }

  /** Whatever branch produced it, a commit index is acknowledged by a majority. */
  lemma CommitIsAcked(voters: set<U64>, useGroupCommit: bool, acks: AckMap, r: CommitResult, n: int)
    requires IsCommitResult(voters, useGroupCommit, acks, r) && n <= r.index
    ensures HalfAcked(voters, acks, n)
  {
    if voters != {} {
      AckersShrink(voters, acks, n, r.index);
      if IsMinAck(voters, acks, r.index) {
        assert Ackers(voters, acks, r.index) == voters;
      }
    }
  }

  /** When an acknowledgement rises, the joint commit index never falls. */
  lemma JointIndexMonotone(incoming: set<U64>, outgoing: set<U64>, acks: AckMap, acks': AckMap, n: U64, n': U64)
    requires forall v :: v in incoming + outgoing ==> AckOf(acks, v).index <= AckOf(acks', v).index
    requires IsJointIndex(incoming, outgoing, acks, n) && IsJointIndex(incoming, outgoing, acks', n')
    ensures n <= n'
  {
    SubsetCardinality(Ackers(incoming, acks, n), Ackers(incoming, acks', n));
    SubsetCardinality(Ackers(outgoing, acks, n), Ackers(outgoing, acks', n));
    assert HalfAcked(incoming, acks', n) && HalfAcked(outgoing, acks', n);
  }

  /** No acknowledgement falls and nobody changes group. */
  ghost predicate Risen(voters: set<U64>, acks: AckMap, acks': AckMap) {
    forall v :: v in voters ==>
      AckOf(acks, v).index <= AckOf(acks', v).index && AckOf(acks, v).groupId == AckOf(acks', v).groupId
  }

  lemma RisenAckers(voters: set<U64>, acks: AckMap, acks': AckMap, n: int)
    requires Risen(voters, acks, acks')
    ensures QuorumAcked(voters, acks, n) ==> QuorumAcked(voters, acks', n)
    ensures TwoGroupsAcked(voters, acks, n) ==> TwoGroupsAcked(voters, acks', n)
  {
    assert Ackers(voters, acks, n) <= Ackers(voters, acks', n);
    SubsetCardinality(Ackers(voters, acks, n), Ackers(voters, acks', n));
    if TwoGroupsAcked(voters, acks, n) {
      var v, w :| v in Ackers(voters, acks, n) && w in Ackers(voters, acks, n)
        && AckOf(acks, v).groupId != 0 && AckOf(acks, w).groupId != 0
        && AckOf(acks, v).groupId != AckOf(acks, w).groupId;
      assert v in Ackers(voters, acks', n) && w in Ackers(voters, acks', n);
    }
  }

  /** The groups alone decide which rule applies, and under each rule the index rises with the acknowledgements. */
  lemma CommitIndexMonotone(
      voters: set<U64>, useGroupCommit: bool, acks: AckMap, acks': AckMap, r: CommitResult, r': CommitResult)
    requires Risen(voters, acks, acks')
    requires IsCommitResult(voters, useGroupCommit, acks, r) && IsCommitResult(voters, useGroupCommit, acks', r')
    ensures r.index <= r'.index && r.useGroupCommit == r'.useGroupCommit
  {
    hide QuorumAcked, Ackers;
    RisenAckers(voters, acks, acks', r.index);
    SpanIsFixed(voters, acks, acks');
  }

  lemma SpanIsFixed(voters: set<U64>, acks: AckMap, acks': AckMap)
    requires Risen(voters, acks, acks')
    ensures TwoGroupsAcked(voters, acks, 0) <==> TwoGroupsAcked(voters, acks', 0)
    ensures AllGrouped(voters, acks) <==> AllGrouped(voters, acks')
  {
    assert Ackers(voters, acks, 0) == voters == Ackers(voters, acks', 0);
    RisenAckers(voters, acks, acks', 0);
    if TwoGroupsAcked(voters, acks', 0) {
      var v, w :| v in Ackers(voters, acks', 0) && w in Ackers(voters, acks', 0)
        && AckOf(acks', v).groupId != 0 && AckOf(acks', w).groupId != 0
        && AckOf(acks', v).groupId != AckOf(acks', w).groupId;
      assert v in Ackers(voters, acks, 0) && w in Ackers(voters, acks, 0);
    }
  }

  lemma HalfResults(incoming: set<U64>, outgoing: set<U64>, acks: AckMap, r: CommitResult)
    returns (i: CommitResult, o: CommitResult)
    requires IsJointGroupResult(incoming, outgoing, acks, r)
    ensures IsCommitResult(incoming, true, acks, i) && IsCommitResult(outgoing, true, acks, o)
    ensures r == CommitResult(Min(i.index, o.index), i.useGroupCommit && o.useGroupCommit)
  {
    hide IsCommitResult;
    i, o :| IsCommitResult(incoming, true, acks, i) && IsCommitResult(outgoing, true, acks, o)
      && r == CommitResult(Min(i.index, o.index), i.useGroupCommit && o.useGroupCommit);
  }

  /** With group commit too: while nobody changes group, the joint result never falls and its flag stays. */
  lemma JointGroupIndexMonotone(
      incoming: set<U64>, outgoing: set<U64>, acks: AckMap, acks': AckMap, r: CommitResult, r': CommitResult)
    requires Risen(incoming + outgoing, acks, acks')
    requires IsJointGroupResult(incoming, outgoing, acks, r) && IsJointGroupResult(incoming, outgoing, acks', r')
    ensures r.index <= r'.index && r.useGroupCommit == r'.useGroupCommit
  {
    hide IsCommitResult, IsJointGroupResult, AckOf;
    var i, o := HalfResults(incoming, outgoing, acks, r);
    var i', o' := HalfResults(incoming, outgoing, acks', r');
    CommitIndexMonotone(incoming, true, acks, acks', i, i');
    CommitIndexMonotone(outgoing, true, acks, acks', o, o');
  }

  /** The ackers of anything up to a commit index win the vote of that configuration. */
  lemma AckersWin(incoming: set<U64>, outgoing: set<U64>, acks: AckMap, n: int)
    requires HalfAcked(incoming, acks, n) && HalfAcked(outgoing, acks, n)
    ensures Wins(incoming, outgoing, Ackers(incoming + outgoing, acks, n))
  {
    var all := Ackers(incoming + outgoing, acks, n);
    assert incoming * all == Ackers(incoming, acks, n);
    assert outgoing * all == Ackers(outgoing, acks, n);
  }
}

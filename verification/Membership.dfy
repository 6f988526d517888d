/** The durable cluster membership: who is a member at which address, and which ids are retired for good. */
module Membership {
  import opened Common
  import opened Bytes
  import ConfRestore

  type ConfState = ConfRestore.ConfState

  type ClusterId = b: seq<Byte> | |b| == 16 witness seq(16, _ => 0)

  /** `PeerEndpoint`. */
  datatype Peer = Peer(nodeId: U64, address: seq<Byte>)

  datatype ClusterMembership = ClusterMembership(clusterId: ClusterId, peers: seq<Peer>, retired: seq<U64>)

  datatype Fault =
    | InvalidClusterId | InvalidNodeId | EmptyAddress | PeersNotSorted | DuplicatePeer
    | RetiredNodeIdsNotSorted | DuplicateRetiredNodeId | ActiveRetiredOverlap | ConfStateMismatch

  function Ids(peers: seq<Peer>): (ids: seq<U64>)
    ensures |ids| == |peers| && forall i :: 0 <= i < |ids| ==> ids[i] == peers[i].nodeId
  {
    seq(|peers|, i requires 0 <= i < |peers| => peers[i].nodeId)
  }

  /** All ids a configuration consults or prepares. */
  function Effective(cs: ConfState): set<U64> {
    SetOf(cs.voters) + SetOf(cs.votersOutgoing) + SetOf(cs.learners) + SetOf(cs.learnersNext)
  }

  // ----- What a sound membership is ------------------------------------------------------------

  ghost predicate PeersOk(peers: seq<Peer>) {
    StrictlySorted(Ids(peers)) && forall i :: 0 <= i < |peers| ==> peers[i].nodeId != 0 && peers[i].address != []
  }

  ghost predicate RetiredOk(ids: seq<U64>) { StrictlySorted(ids) && 0 !in ids }

  ghost predicate Structured(m: ClusterMembership) {
    && m.clusterId != seq(16, _ => 0)
    && PeersOk(m.peers) && RetiredOk(m.retired)
    && SetOf(Ids(m.peers)) !! SetOf(m.retired)
  }

  /** The members are exactly the ids of the configuration. */
  ghost predicate Valid(m: ClusterMembership, cs: ConfState) {
    Structured(m) && SetOf(Ids(m.peers)) == Effective(cs)
  }

  // ----- The faults in the order they are looked for -------------------------------------------

  function OrderFault(previous: U64, id: U64, duplicate: Fault, unsorted: Fault): Option<Fault> {
    if previous == id then Some(duplicate) else if previous > id then Some(unsorted) else None
  }

  function PeerFault(peers: seq<Peer>, i: nat): Option<Fault>
    requires i < |peers|
  {
    if peers[i].nodeId == 0 then Some(InvalidNodeId)
    else if peers[i].address == [] then Some(EmptyAddress)
    else if i == 0 then None
    else OrderFault(peers[i - 1].nodeId, peers[i].nodeId, DuplicatePeer, PeersNotSorted)
  }

  function FirstPeerFault(peers: seq<Peer>, i: nat): Option<Fault>
    requires i <= |peers|
    decreases |peers| - i
  {
    if i == |peers| then None
    else if PeerFault(peers, i).Some? then PeerFault(peers, i) else FirstPeerFault(peers, i + 1)
  }

  function RetiredFault(ids: seq<U64>, i: nat): Option<Fault>
    requires i < |ids|
  {
    if ids[i] == 0 then Some(InvalidNodeId)
    else if i == 0 then None
    else OrderFault(ids[i - 1], ids[i], DuplicateRetiredNodeId, RetiredNodeIdsNotSorted)
  }

  function FirstRetiredFault(ids: seq<U64>, i: nat): Option<Fault>
    requires i <= |ids|
    decreases |ids| - i
  {
    if i == |ids| then None
    else if RetiredFault(ids, i).Some? then RetiredFault(ids, i) else FirstRetiredFault(ids, i + 1)
  }

  ghost function StructureFault(m: ClusterMembership): Option<Fault> {
    if m.clusterId == seq(16, _ => 0) then Some(InvalidClusterId)
    else if FirstPeerFault(m.peers, 0).Some? then FirstPeerFault(m.peers, 0)
    else if FirstRetiredFault(m.retired, 0).Some? then FirstRetiredFault(m.retired, 0)
    else if SetOf(Ids(m.peers)) !! SetOf(m.retired) then None
    else Some(ActiveRetiredOverlap)
  }

  /** The configuration's ids in the order they are looked up. */
  function Listed(cs: ConfState): seq<U64> { cs.voters + cs.votersOutgoing + cs.learners + cs.learnersNext }

  function FirstIdFault(ids: seq<U64>, members: set<U64>): Option<Fault> {
    if ids == [] then None
    else if ids[0] == 0 then Some(InvalidNodeId)
    else if ids[0] !in members then Some(ConfStateMismatch)
    else FirstIdFault(ids[1..], members)
  }

  ghost function ValidityFault(m: ClusterMembership, cs: ConfState): Option<Fault> {
    if StructureFault(m).Some? then StructureFault(m)
    else if !(SetOf(Ids(m.peers)) <= Effective(cs)) then Some(ConfStateMismatch)
    else FirstIdFault(Listed(cs), SetOf(Ids(m.peers)))
  }

  // ----- No fault is found exactly when the membership is sound --------------------------------

  ghost predicate Rises(ids: seq<U64>, i: nat) { 0 < i < |ids| ==> ids[i - 1] < ids[i] }

  /** Neighbours in order are enough for the whole list to be. */
  lemma {:induction false} NeighboursSorted(ids: seq<U64>)
    requires forall i: nat :: Rises(ids, i)
    ensures StrictlySorted(ids)
  {
    forall i, j | 0 <= i < j < |ids| ensures ids[i] < ids[j] { ClimbTo(ids, i, j); }
  }

  lemma {:induction false} ClimbTo(ids: seq<U64>, i: nat, j: nat)
    requires i < j < |ids| && forall k: nat :: Rises(ids, k)
    ensures ids[i] < ids[j]
  {
    assert Rises(ids, j);
    if i < j - 1 { ClimbTo(ids, i, j - 1); }
  }

  lemma {:induction false} NoPeerFault(peers: seq<Peer>, i: nat)
    requires i <= |peers|
    ensures FirstPeerFault(peers, i).None? <==> forall k :: i <= k < |peers| ==> PeerFault(peers, k).None?
    decreases |peers| - i
  {
    if i < |peers| { NoPeerFault(peers, i + 1); }
  }

  lemma PeersFaultless(peers: seq<Peer>)
    ensures FirstPeerFault(peers, 0).None? <==> PeersOk(peers)
  {
    NoPeerFault(peers, 0);
    var ids := Ids(peers);
    if forall k :: 0 <= k < |peers| ==> PeerFault(peers, k).None? {
      forall i: nat ensures Rises(ids, i) {
        if 0 < i < |peers| { assert PeerFault(peers, i).None?; }
      }
      NeighboursSorted(ids);
      forall i | 0 <= i < |peers| ensures peers[i].nodeId != 0 && peers[i].address != [] {
        assert PeerFault(peers, i).None?;
      }
    } else {
      var k :| 0 <= k < |peers| && PeerFault(peers, k).Some?;
      assert k > 0 ==> ids[k - 1] == peers[k - 1].nodeId && ids[k] == peers[k].nodeId;
    }
  }

  lemma {:induction false} NoRetiredFault(ids: seq<U64>, i: nat)
    requires i <= |ids|
    ensures FirstRetiredFault(ids, i).None? <==> forall k :: i <= k < |ids| ==> RetiredFault(ids, k).None?
    decreases |ids| - i
  {
    if i < |ids| { NoRetiredFault(ids, i + 1); }
  }

  lemma RetiredFaultless(ids: seq<U64>)
    ensures FirstRetiredFault(ids, 0).None? <==> RetiredOk(ids)
  {
    NoRetiredFault(ids, 0);
    if forall k :: 0 <= k < |ids| ==> RetiredFault(ids, k).None? {
      forall i: nat ensures Rises(ids, i) {
        if 0 < i < |ids| { assert RetiredFault(ids, i).None?; }
      }
      NeighboursSorted(ids);
    }
  }

  lemma StructureFaultless(m: ClusterMembership)
    ensures StructureFault(m).None? <==> Structured(m)
  {
    hide PeersOk, RetiredOk;
    PeersFaultless(m.peers);
    RetiredFaultless(m.retired);
  }

  lemma {:induction false} NoIdFault(ids: seq<U64>, members: set<U64>)
    ensures FirstIdFault(ids, members).None? <==> 0 !in ids && SetOf(ids) <= members
  {
    if ids != [] {
      NoIdFault(ids[1..], members);
      assert ids == [ids[0]] + ids[1..];
      SetOfAppend([ids[0]], ids[1..]);
      assert SetOf([ids[0]]) == {ids[0]};
    }
  }

  lemma ListedIds(cs: ConfState)
    ensures SetOf(Listed(cs)) == Effective(cs)
  {
    SetOfAppend(cs.voters, cs.votersOutgoing);
    SetOfAppend(cs.voters + cs.votersOutgoing, cs.learners);
    SetOfAppend(cs.voters + cs.votersOutgoing + cs.learners, cs.learnersNext);
  }

  /** `validate` accepts exactly the memberships whose members are the configuration's ids. */
  lemma ValidityFaultless(m: ClusterMembership, cs: ConfState)
    ensures ValidityFault(m, cs).None? <==> Valid(m, cs)
  {
    hide Structured, StructureFault, Effective, Listed;
    StructureFaultless(m);
    NoIdFault(Listed(cs), SetOf(Ids(m.peers)));
    ListedIds(cs);
    if Structured(m) { ZeroIsNoMember(m); }
    assert 0 in Listed(cs) <==> 0 in SetOf(Listed(cs));
  }

  lemma ZeroIsNoMember(m: ClusterMembership)
    requires Structured(m)
    ensures 0 !in SetOf(Ids(m.peers))
  {
  }

  // ----- What each fault says --------------------------------------------------------------------

  /** The first entries are in order and the next one is not, for the reason `f` gives. */
  ghost predicate BadPeer(peers: seq<Peer>, f: Fault) {
    exists i :: 0 <= i < |peers| && PeersOk(peers[..i]) && BadPeerAt(peers, i, f)
  }

  ghost predicate BadPeerAt(peers: seq<Peer>, i: nat, f: Fault)
    requires i < |peers|
  {
    match f
    case InvalidNodeId => peers[i].nodeId == 0
    case EmptyAddress => peers[i].nodeId != 0 && peers[i].address == []
    case DuplicatePeer =>
      0 != peers[i].nodeId && peers[i].address != [] && i > 0 && peers[i].nodeId == peers[i - 1].nodeId
    case PeersNotSorted =>
      0 != peers[i].nodeId && peers[i].address != [] && i > 0 && peers[i].nodeId < peers[i - 1].nodeId
    case _ => false
  }

  ghost predicate BadRetired(ids: seq<U64>, f: Fault) {
    exists i :: 0 <= i < |ids| && RetiredOk(ids[..i]) && BadRetiredAt(ids, i, f)
  }

  ghost predicate BadRetiredAt(ids: seq<U64>, i: nat, f: Fault)
    requires i < |ids|
  {
    match f
    case InvalidNodeId => ids[i] == 0
    case DuplicateRetiredNodeId => 0 != ids[i] && i > 0 && ids[i] == ids[i - 1]
    case RetiredNodeIdsNotSorted => 0 != ids[i] && i > 0 && ids[i] < ids[i - 1]
    case _ => false
  }

  /** Cluster id, peers, retired ids and their disjointness are looked at in this order. */
  ghost predicate IllStructured(m: ClusterMembership, f: Fault) {
    if forall i :: 0 <= i < 16 ==> m.clusterId[i] == 0 then f == InvalidClusterId
    else if !PeersOk(m.peers) then BadPeer(m.peers, f)
    else if !RetiredOk(m.retired) then BadRetired(m.retired, f)
    else f == ActiveRetiredOverlap && exists p :: p in m.peers && p.nodeId in m.retired
  }

  ghost predicate Invalid(m: ClusterMembership, cs: ConfState, f: Fault) {
    if !Structured(m) then IllStructured(m, f)
    else if f == InvalidNodeId then 0 in Effective(cs)
    else f == ConfStateMismatch && SetOf(Ids(m.peers)) != Effective(cs)
  }

  lemma {:induction false} FirstPeerFaultIs(peers: seq<Peer>, i: nat)
    requires i <= |peers| && PeersOk(peers[..i]) && FirstPeerFault(peers, i).Some?
    ensures BadPeer(peers, FirstPeerFault(peers, i).value)
    decreases |peers| - i
  {
    if PeerFault(peers, i).None? {
      NextPeerOk(peers, i);
      FirstPeerFaultIs(peers, i + 1);
    } else {
      assert BadPeerAt(peers, i, PeerFault(peers, i).value);
    }
  }

  /** The first fault is named in one way only. */
  lemma {:induction false} BadPeerFound(peers: seq<Peer>, i: nat, f: Fault)
    requires i <= |peers| && PeersOk(peers[..i]) && BadPeer(peers, f)
    ensures FirstPeerFault(peers, i) == Some(f)
    decreases |peers| - i
  {
    var k :| 0 <= k < |peers| && PeersOk(peers[..k]) && BadPeerAt(peers, k, f);
    if k < i {
      PrefixNotBad(peers, k, i, f);
    } else if k == i {
      assert PeerFault(peers, i) == Some(f);
    } else {
      assert PeerFault(peers, i).None? by { PrefixFaultless(peers, i, k); }
      NextPeerOk(peers, i);
      BadPeerFound(peers, i + 1, f);
    }
  }

  lemma PrefixNotBad(peers: seq<Peer>, k: nat, i: nat, f: Fault)
    requires k < i <= |peers| && PeersOk(peers[..i])
    ensures !BadPeerAt(peers, k, f)
  {
    var front := peers[..i];
    assert front[k] == peers[k];
    if k > 0 { assert Ids(front)[k - 1] < Ids(front)[k]; }
  }

  lemma PrefixFaultless(peers: seq<Peer>, i: nat, k: nat)
    requires i < k <= |peers| && PeersOk(peers[..k])
    ensures PeerFault(peers, i).None?
  {
    var front := peers[..k];
    assert front[i] == peers[i];
    if i > 0 { assert Ids(front)[i - 1] < Ids(front)[i]; }
  }

  lemma NobodyOk()
    ensures PeersOk([])
  {
  }

  lemma NextPeerOk(peers: seq<Peer>, i: nat)
    requires i < |peers| && PeersOk(peers[..i]) && PeerFault(peers, i).None?
    ensures PeersOk(peers[..i + 1])
  {
    var front, longer := peers[..i], peers[..i + 1];
    assert forall k :: 0 <= k < i ==> Ids(longer)[k] == Ids(front)[k];
    assert i > 0 ==> Ids(front)[i - 1] < Ids(longer)[i];
  }

  lemma {:induction false} FirstRetiredFaultIs(ids: seq<U64>, i: nat)
    requires i <= |ids| && RetiredOk(ids[..i]) && FirstRetiredFault(ids, i).Some?
    ensures BadRetired(ids, FirstRetiredFault(ids, i).value)
    decreases |ids| - i
  {
    if RetiredFault(ids, i).None? {
      assert i > 0 ==> ids[..i][i - 1] < ids[i];
      FirstRetiredFaultIs(ids, i + 1);
    } else {
      assert BadRetiredAt(ids, i, RetiredFault(ids, i).value);
    }
  }

  /** The fault found is a fault of the membership, and the first one in the order they are looked for. */
  lemma StructureFaultMeans(m: ClusterMembership)
    requires StructureFault(m).Some?
    ensures IllStructured(m, StructureFault(m).value)
  {
    PeersFaultless(m.peers);
    RetiredFaultless(m.retired);
    var zero := forall i :: 0 <= i < 16 ==> m.clusterId[i] == 0;
    assert zero <==> m.clusterId == seq(16, _ => 0);
    if FirstPeerFault(m.peers, 0).Some? { FirstPeerFaultIs(m.peers, 0); }
    if FirstRetiredFault(m.retired, 0).Some? { FirstRetiredFaultIs(m.retired, 0); }
    hide PeersOk, RetiredOk, BadPeer, BadRetired;
    if id :| id in SetOf(Ids(m.peers)) && id in SetOf(m.retired) {
      var i :| 0 <= i < |m.peers| && Ids(m.peers)[i] == id;
      assert m.peers[i] in m.peers && m.peers[i].nodeId in m.retired;
    }
  }

  lemma ValidityFaultMeans(m: ClusterMembership, cs: ConfState)
    requires ValidityFault(m, cs).Some?
    ensures Invalid(m, cs, ValidityFault(m, cs).value)
  {
    hide Structured, StructureFault, IllStructured, Effective, Listed;
    StructureFaultless(m);
    if StructureFault(m).Some? {
      StructureFaultMeans(m);
    } else if SetOf(Ids(m.peers)) <= Effective(cs) {
      ListedIds(cs);
      FirstIdFaultIs(Listed(cs), SetOf(Ids(m.peers)));
      assert 0 in Listed(cs) <==> 0 in SetOf(Listed(cs));
    }
  }

  lemma {:induction false} FirstIdFaultIs(ids: seq<U64>, members: set<U64>)
    ensures FirstIdFault(ids, members) == Some(InvalidNodeId) ==> 0 in ids
    ensures FirstIdFault(ids, members).Some? ==>
      FirstIdFault(ids, members).value in {InvalidNodeId, ConfStateMismatch}
    ensures FirstIdFault(ids, members) == Some(ConfStateMismatch) ==> !(SetOf(ids) <= members)
  {
    if ids != [] {
      FirstIdFaultIs(ids[1..], members);
      SetOfFirst(ids);
    }
  }

  // ----- Looking up -----------------------------------------------------------------------------

  /** The address listed for `id`, if any. */
  function Lookup(peers: seq<Peer>, id: U64): (r: Option<seq<Byte>>)
    ensures r.Some? <==> id in Ids(peers)
    ensures r.Some? ==> exists i :: 0 <= i < |peers| && peers[i] == Peer(id, r.value)
  {
    if peers == [] then None
    else if peers[0].nodeId == id then
      assert Ids(peers)[0] == id;
      Some(peers[0].address)
    else
      var r := Lookup(peers[1..], id);
      assert Ids(peers) == [peers[0].nodeId] + Ids(peers[1..]);
      assert r.Some? ==> exists i :: 0 <= i < |peers| - 1 && peers[i + 1] == peers[1..][i] == Peer(id, r.value);
      r
  }

  /** Binary search by node id. */
  method AddressOf(peers: seq<Peer>, id: U64) returns (r: Option<seq<Byte>>)
    requires StrictlySorted(Ids(peers))
    ensures r == Lookup(peers, id)
  {
    hide Lookup;
    ghost var ids := Ids(peers);
    var low, high := 0, |peers|;
    while low < high
      invariant low <= high <= |peers|
      invariant forall i :: 0 <= i < low ==> ids[i] < id
      invariant forall i :: high <= i < |peers| ==> ids[i] > id
    {
      var mid := low + (high - low) / 2;
      if peers[mid].nodeId < id {
        low := mid + 1;
      } else if peers[mid].nodeId > id {
        high := mid;
      } else {
        return Some(peers[mid].address);
      }
    }
    return None;
  }

  method ContainsSorted(ids: seq<U64>, id: U64) returns (found: bool)
    requires StrictlySorted(ids)
    ensures found <==> id in ids
  {
    var low, high := 0, |ids|;
    while low < high
      invariant low <= high <= |ids|
      invariant forall i :: 0 <= i < low ==> ids[i] < id
      invariant forall i :: high <= i < |ids| ==> ids[i] > id
    {
      var mid := low + (high - low) / 2;
      if ids[mid] < id {
        low := mid + 1;
      } else if ids[mid] > id {
        high := mid;
      } else {
        return true;
      }
    }
    return false;
  }

  // ----- Validation as it runs ------------------------------------------------------------------

  method IsZeroClusterId(id: ClusterId) returns (zero: bool)
    ensures zero <==> id == seq(16, _ => 0)
  {
    for i := 0 to |id|
      invariant forall j :: 0 <= j < i ==> id[j] == 0
    {
      if id[i] != 0 {
        assert seq(16, _ => 0)[i] == 0;
        return false;
      }
    }
    return true;
  }

  method ValidateEndpoints(peers: seq<Peer>) returns (r: Option<Fault>)
    ensures r == FirstPeerFault(peers, 0)
    ensures if r.None? then PeersOk(peers) else BadPeer(peers, r.value)
  {
    hide PeersOk, BadPeer;
    PeersFaultless(peers);
    assert PeersOk(peers[..0]) by { NobodyOk(); }
    if FirstPeerFault(peers, 0).Some? { FirstPeerFaultIs(peers, 0); }
    for i := 0 to |peers|
      invariant FirstPeerFault(peers, 0) == FirstPeerFault(peers, i)
    {
      if peers[i].nodeId == 0 { return Some(InvalidNodeId); }
      if peers[i].address == [] { return Some(EmptyAddress); }
      if i != 0 {
        var previous := peers[i - 1].nodeId;
        if previous == peers[i].nodeId { return Some(DuplicatePeer); }
        if previous > peers[i].nodeId { return Some(PeersNotSorted); }
      }
    }
    return None;
  }

  method ValidateRetired(ids: seq<U64>) returns (r: Option<Fault>)
    ensures r == FirstRetiredFault(ids, 0)
  {
    for i := 0 to |ids|
      invariant FirstRetiredFault(ids, 0) == FirstRetiredFault(ids, i)
    {
      if ids[i] == 0 { return Some(InvalidNodeId); }
      if i != 0 {
        var previous := ids[i - 1];
        if previous == ids[i] { return Some(DuplicateRetiredNodeId); }
        if previous > ids[i] { return Some(RetiredNodeIdsNotSorted); }
      }
    }
    return None;
  }

  /** Two sorted lists walked side by side. */
  method Overlaps(peers: seq<Peer>, retired: seq<U64>) returns (overlap: bool)
    requires StrictlySorted(Ids(peers)) && StrictlySorted(retired)
    ensures overlap <==> !(SetOf(Ids(peers)) !! SetOf(retired))
  {
    ghost var ids := Ids(peers);
    var p, r := 0, 0;
    while p < |peers| && r < |retired|
      invariant p <= |peers| && r <= |retired|
      invariant forall i, j :: 0 <= i < |peers| && 0 <= j < |retired| && (i < p || j < r) ==> ids[i] != retired[j]
      decreases |peers| - p + |retired| - r
    {
      var active, gone := peers[p].nodeId, retired[r];
      if active < gone {
        p := p + 1;
      } else if active > gone {
        r := r + 1;
      } else {
        assert ids[p] in SetOf(ids) && ids[p] in SetOf(retired);
        return true;
      }
    }
    return false;
  }

  method ValidateStructure(m: ClusterMembership) returns (r: Option<Fault>)
    ensures r == StructureFault(m)
    ensures r.Some? ==> IllStructured(m, r.value)
  {
    hide FirstPeerFault, FirstRetiredFault, IllStructured, BadPeer;
    if StructureFault(m).Some? { StructureFaultMeans(m); }
    var zero := IsZeroClusterId(m.clusterId);
    if zero { return Some(InvalidClusterId); }
    var peerFault := ValidateEndpoints(m.peers);
    if peerFault.Some? { return peerFault; }
    var retiredFault := ValidateRetired(m.retired);
    if retiredFault.Some? { return retiredFault; }
    PeersFaultless(m.peers);
    RetiredFaultless(m.retired);
    var overlap := Overlaps(m.peers, m.retired);
    return if overlap then Some(ActiveRetiredOverlap) else None;
  }

  method ConfStateContains(cs: ConfState, id: U64) returns (found: bool)
    ensures found <==> id in Effective(cs)
  {
    var all := Listed(cs);
    ListedIds(cs);
    assert id in Effective(cs) <==> id in all;
    for i := 0 to |all|
      invariant id !in all[..i]
    {
      if all[i] == id { return true; }
    }
    return false;
  }

  method Validate(m: ClusterMembership, cs: ConfState) returns (r: Option<Fault>)
    ensures r == ValidityFault(m, cs)
    ensures r.None? <==> Valid(m, cs)
    ensures r.Some? ==> Invalid(m, cs, r.value)
  {
    hide Structured, StructureFault, Effective, Listed, Invalid, IllStructured;
    if ValidityFault(m, cs).Some? { ValidityFaultMeans(m, cs); }
    ValidityFaultless(m, cs);
    StructureFaultless(m);
    r := ValidateStructure(m);
    if r.Some? { return; }
    assert StrictlySorted(Ids(m.peers)) by { SortedWhenStructured(m); }
    for i := 0 to |m.peers|
      invariant forall j :: 0 <= j < i ==> Ids(m.peers)[j] in Effective(cs)
    {
      var found := ConfStateContains(cs, m.peers[i].nodeId);
      if !found {
        assert Ids(m.peers)[i] in SetOf(Ids(m.peers));
        return Some(ConfStateMismatch);
      }
    }
    var all := Listed(cs);
    for i := 0 to |all|
      invariant FirstIdFault(all, SetOf(Ids(m.peers))) == FirstIdFault(all[i..], SetOf(Ids(m.peers)))
    {
      assert all[i..][0] == all[i] && all[i..][1..] == all[i + 1..];
      if all[i] == 0 { return Some(InvalidNodeId); }
      var address := AddressOf(m.peers, all[i]);
      if address.None? { return Some(ConfStateMismatch); }
    }
    return None;
  }

  lemma SortedWhenStructured(m: ClusterMembership)
    requires Structured(m)
    ensures StrictlySorted(Ids(m.peers))
  {
  }
}

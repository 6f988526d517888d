/** How each configuration change rewrites the durable membership, and what that means over a whole history. */
module MembershipDerivation {
  import opened Common
  import opened Bytes
  import opened Sorting
  import opened Configuration
  import opened Membership
  import opened MembershipCodec

  /** `ConfChangeV2` as far as the membership looks at it. */
  datatype ConfChangeV2 = ConfChangeV2(changes: seq<Change>, context: seq<Byte>)

  datatype DeriveError =
    | InvalidClusterMembership | RetiredNodeId | ConflictingPeerAddress | MalformedMembershipContext
    | MissingPeerAddress | UnexpectedPeerAddress

  // ----- The addresses a change carries --------------------------------------------------------

  predicate Adds(c: Change) { c.changeType.AddNode? || c.changeType.AddLearnerNode? }

  function Additions(changes: seq<Change>): seq<Change> {
    if changes == [] then []
    else (if Adds(changes[0]) then [changes[0]] else []) + Additions(changes[1..])
  }

  /** The bare address form names its node through the one addition beside it. */
  function LegacyEndpoints(cc: ConfChangeV2): Result<seq<Peer>, DeriveError> {
    var adds := Additions(cc.changes);
    if |adds| == 1 && adds[0].nodeId != 0 then Ok([Peer(adds[0].nodeId, cc.context)])
    else Err(MalformedMembershipContext)
  }

  function Endpoints(cc: ConfChangeV2): Result<seq<Peer>, DeriveError> {
    if CONTEXT_MAGIC <= cc.context then
      match DecodedContext(cc.context)
      case Ok(peers) => Ok(peers)
      case Err(e) => Err(if e == Unsound(DuplicatePeer) then ConflictingPeerAddress else MalformedMembershipContext)
    else if cc.context != [] then LegacyEndpoints(cc)
    else Ok([])
  }

  /** Every accepted address list is sorted, names real nodes and has no empty address. */
  lemma EndpointsOk(cc: ConfChangeV2)
    ensures Endpoints(cc).Ok? ==> PeersOk(Endpoints(cc).value)
  {
    hide ScanHeader, ParseCounted;
    if Endpoints(cc).Ok? && CONTEXT_MAGIC <= cc.context { PeersFaultless(Endpoints(cc).value); }
  }

  // ----- What a change is refused for ----------------------------------------------------------

  predicate Updates(changes: seq<Change>, id: U64) { Change(UpdateNode, id) in changes }

  function CountChanges(changes: seq<Change>, t: ChangeType, id: U64): nat {
    if changes == [] then 0
    else CountChanges(changes[..|changes| - 1], t, id) + if changes[|changes| - 1] == Change(t, id) then 1 else 0
  }

  function UpdateFault(changes: seq<Change>, i: nat, before: set<U64>, after: set<U64>, endpoints: seq<Peer>)
    : Option<DeriveError>
    requires i < |changes|
  {
    var c := changes[i];
    if !c.changeType.UpdateNode? || c.nodeId == 0 then None
    else if c in changes[..i] || c.nodeId !in before || c.nodeId !in after then Some(ConflictingPeerAddress)
    else if Lookup(endpoints, c.nodeId).None? then Some(MissingPeerAddress)
    else None
  }

  function FirstUpdateFault(changes: seq<Change>, i: nat, before: set<U64>, after: set<U64>, endpoints: seq<Peer>)
    : Option<DeriveError>
    requires i <= |changes|
    decreases |changes| - i
  {
    if i == |changes| then None
    else if UpdateFault(changes, i, before, after, endpoints).Some?
    then UpdateFault(changes, i, before, after, endpoints)
    else FirstUpdateFault(changes, i + 1, before, after, endpoints)
  }

  /** A retired id may only be mentioned to remove it. */
  ghost predicate TouchesRetired(changes: seq<Change>, retired: seq<U64>) {
    exists i :: 0 <= i < |changes| && Revives(changes[i], retired)
  }

  predicate Revives(c: Change, retired: seq<U64>) {
    c.nodeId != 0 && !c.changeType.RemoveNode? && c.nodeId in retired
  }

  ghost predicate AddressesMissing(before: set<U64>, after: set<U64>, endpoints: seq<Peer>) {
    exists id :: id in after - before && Lookup(endpoints, id).None?
  }

  /** An address is wanted for a node that joins, or for a staying node named by one update. */
  predicate Wanted(cc: ConfChangeV2, before: set<U64>, after: set<U64>, id: U64) {
    id in after && (id in before ==> CountChanges(cc.changes, UpdateNode, id) == 1)
  }

  ghost predicate AddressesUnwanted(cc: ConfChangeV2, before: set<U64>, after: set<U64>, endpoints: seq<Peer>) {
    exists i :: 0 <= i < |endpoints| && !Wanted(cc, before, after, endpoints[i].nodeId)
  }

  ghost function AddressFault(cc: ConfChangeV2, before: set<U64>, after: set<U64>): Option<DeriveError> {
    match Endpoints(cc) case Err(e) => Some(e) case Ok(endpoints) =>
    var update := FirstUpdateFault(cc.changes, 0, before, after, endpoints);
    if update.Some? then update
    else if AddressesMissing(before, after, endpoints) then Some(MissingPeerAddress)
    else if AddressesUnwanted(cc, before, after, endpoints) then Some(UnexpectedPeerAddress)
    else None
  }

  /** Why deriving the next membership is refused, if it is. */
  ghost function Verdict(m: ClusterMembership, prev: ConfState, next: ConfState, cc: ConfChangeV2)
    : Option<DeriveError>
  {
    if !Valid(m, prev) || 0 in Effective(next) then Some(InvalidClusterMembership)
    else if !(Effective(next) !! SetOf(m.retired)) || TouchesRetired(cc.changes, m.retired) then Some(RetiredNodeId)
    else AddressFault(cc, Effective(prev), Effective(next))
  }

  // ----- What an accepted change derives -------------------------------------------------------

  /** Where `id` is reached after the change. */
  function NewAddress(m: ClusterMembership, cc: ConfChangeV2, endpoints: seq<Peer>, id: U64): Option<seq<Byte>> {
    if Updates(cc.changes, id) || Lookup(m.peers, id).None? then Lookup(endpoints, id) else Lookup(m.peers, id)
  }

  ghost predicate Derived(
    m: ClusterMembership, prev: ConfState, next: ConfState, cc: ConfChangeV2, r: ClusterMembership)
  {
    && r.clusterId == m.clusterId
    && StrictlySorted(Ids(r.peers)) && SetOf(Ids(r.peers)) == Effective(next)
    && StrictlySorted(r.retired) && SetOf(r.retired) == SetOf(m.retired) + (Effective(prev) - Effective(next))
    && Endpoints(cc).Ok?
    && forall i :: 0 <= i < |r.peers| ==>
         NewAddress(m, cc, Endpoints(cc).value, r.peers[i].nodeId) == Some(r.peers[i].address)
  }

  // ----- The same rules, address by address ----------------------------------------------------

  /** `id` is listed, at one address or another. */
  ghost predicate IsListed(peers: seq<Peer>, id: U64) { exists p :: p in peers && p.nodeId == id }

  /** The one change that makes a node join as voter or learner. */
  ghost predicate OnlyAddition(changes: seq<Change>, i: nat) {
    && i < |changes| && changes[i].changeType in {AddNode, AddLearnerNode}
    && forall j :: 0 <= j < |changes| && changes[j].changeType in {AddNode, AddLearnerNode} ==> j == i
  }

  /** The change carries exactly these addresses, as an encoded list, bare beside the one addition, or not at all. */
  ghost predicate Carries(cc: ConfChangeV2, es: seq<Peer>) {
    if CONTEXT_MAGIC <= cc.context then ContextEncodable(es) && cc.context == PrintContext(es)
    else if cc.context == [] then es == []
    else
      exists i: nat ::
        OnlyAddition(cc.changes, i) && cc.changes[i].nodeId != 0 && es == [Peer(cc.changes[i].nodeId, cc.context)]
  }

  /** No id zero and nobody retired, neither among the members nor in a change other than a removal. */
  ghost predicate NobodyRetired(m: ClusterMembership, after: set<U64>, changes: seq<Change>) {
    && (forall id :: id in after ==> id !in m.retired)
    && forall c :: c in changes && c.nodeId != 0 && c.nodeId in m.retired ==> c.changeType == RemoveNode
  }

  /** A node is updated once, and only if it stays. */
  ghost predicate UpdatesStay(changes: seq<Change>, before: set<U64>, after: set<U64>) {
    forall i :: 0 <= i < |changes| && changes[i].changeType == UpdateNode && changes[i].nodeId != 0 ==>
      changes[i].nodeId in before && changes[i].nodeId in after && changes[i] !in changes[..i]
  }

  /** Everyone who joins or is updated has an address. */
  ghost predicate AllAddressed(changes: seq<Change>, before: set<U64>, after: set<U64>, es: seq<Peer>) {
    && (forall id :: id in after - before ==> IsListed(es, id))
    && forall c :: c in changes && c.changeType == UpdateNode && c.nodeId != 0 ==> IsListed(es, c.nodeId)
  }

  /** And no address is for anyone else. */
  ghost predicate NoneSpare(changes: seq<Change>, before: set<U64>, after: set<U64>, es: seq<Peer>) {
    forall p :: p in es ==> p.nodeId in after && (p.nodeId in before ==> Change(UpdateNode, p.nodeId) in changes)
  }

  ghost predicate Allowed(m: ClusterMembership, prev: ConfState, next: ConfState, cc: ConfChangeV2, es: seq<Peer>) {
    var before, after := Effective(prev), Effective(next);
    && Valid(m, prev) && 0 !in after && NobodyRetired(m, after, cc.changes)
    && Carries(cc, es) && UpdatesStay(cc.changes, before, after)
    && AllAddressed(cc.changes, before, after, es) && NoneSpare(cc.changes, before, after, es)
  }

  /** The address a node has after the change: the one carried if it joins or is updated, otherwise its own. */
  ghost predicate Reached(
    m: ClusterMembership, prev: ConfState, next: ConfState, cc: ConfChangeV2, es: seq<Peer>, p: Peer)
  {
    && p.nodeId in Effective(next)
    && p in if p.nodeId in Effective(prev) && Change(UpdateNode, p.nodeId) !in cc.changes then m.peers else es
  }

  lemma {:induction false} LookupMeans(peers: seq<Peer>, id: U64)
    requires StrictlySorted(Ids(peers))
    ensures Lookup(peers, id).Some? <==> IsListed(peers, id)
    ensures forall a :: Lookup(peers, id) == Some(a) <==> Peer(id, a) in peers
  {
    hide Lookup;
    forall p | p in peers && p.nodeId == id ensures id in Ids(peers) {
      var i :| 0 <= i < |peers| && peers[i] == p;
      assert Ids(peers)[i] == id;
    }
    if id in Ids(peers) {
      var i :| 0 <= i < |peers| && peers[i] == Peer(id, Lookup(peers, id).value);
      assert peers[i] in peers;
      forall a | Peer(id, a) in peers ensures a == Lookup(peers, id).value {
        var j :| 0 <= j < |peers| && peers[j] == Peer(id, a);
        assert Ids(peers)[i] == Ids(peers)[j];
      }
    }
  }

  lemma {:induction false} AdditionsMean(changes: seq<Change>)
    ensures |Additions(changes)| == 1 <==> exists i: nat :: OnlyAddition(changes, i)
    ensures forall i: nat :: OnlyAddition(changes, i) ==> Additions(changes) == [changes[i]]
    ensures Additions(changes) == [] <==> forall j :: 0 <= j < |changes| ==> !Adds(changes[j])
  {
    if changes != [] {
      var rest := changes[1..];
      AdditionsMean(rest);
      if Adds(changes[0]) {
        forall i: nat | OnlyAddition(changes, i) ensures i == 0 {}
        if Additions(rest) == [] {
          assert OnlyAddition(changes, 0) by {
            forall j | 0 < j < |changes| ensures !Adds(changes[j]) { assert changes[j] == rest[j - 1]; }
          }
        } else {
          var j :| 0 <= j < |rest| && Adds(rest[j]);
          assert Adds(changes[j + 1]);
        }
      } else {
        RestAddition(changes);
        assert forall j :: 0 < j < |changes| ==> changes[j] == rest[j - 1];
        assert forall j :: 0 <= j < |rest| ==> rest[j] == changes[j + 1];
      }
    }
  }

  lemma RestAddition(changes: seq<Change>)
    requires changes != [] && !Adds(changes[0])
    ensures forall i: nat :: OnlyAddition(changes, i) ==> i > 0 && OnlyAddition(changes[1..], i - 1)
    ensures (exists i: nat :: OnlyAddition(changes[1..], i)) ==> exists i: nat :: OnlyAddition(changes, i)
  {
    var rest := changes[1..];
    forall i: nat | OnlyAddition(changes, i) ensures i > 0 && OnlyAddition(rest, i - 1) {
      forall j | 0 <= j < |rest| && rest[j].changeType in {AddNode, AddLearnerNode} ensures j == i - 1 {
        assert rest[j] == changes[j + 1];
      }
    }
    if i: nat :| OnlyAddition(rest, i) {
      forall j | 0 <= j < |changes| && changes[j].changeType in {AddNode, AddLearnerNode} ensures j == i + 1 {
        assert changes[j] == rest[j - 1];
      }
      assert OnlyAddition(changes, i + 1);
    }
  }

  lemma EndpointsCarried(cc: ConfChangeV2, es: seq<Peer>)
    ensures Endpoints(cc) == Ok(es) <==> Carries(cc, es)
  {
    hide DecodedContext, PrintContext, ContextEncodable, OnlyAddition;
    if CONTEXT_MAGIC <= cc.context {
      ContextBijection(cc.context, es);
    } else {
      AdditionsMean(cc.changes);
    }
  }

  lemma UpdateFaultsMean(changes: seq<Change>, before: set<U64>, after: set<U64>, es: seq<Peer>)
    requires StrictlySorted(Ids(es))
    ensures (forall k :: 0 <= k < |changes| ==> UpdateFault(changes, k, before, after, es).None?)
      <==> (UpdatesStay(changes, before, after)
        && forall c :: c in changes && c.changeType == UpdateNode && c.nodeId != 0 ==> IsListed(es, c.nodeId))
  {
    forall id ensures Lookup(es, id).Some? <==> IsListed(es, id) { LookupMeans(es, id); }
    hide Lookup, IsListed;
    if forall k :: 0 <= k < |changes| ==> UpdateFault(changes, k, before, after, es).None? {
      forall i | 0 <= i < |changes| && changes[i].changeType == UpdateNode && changes[i].nodeId != 0
        ensures changes[i].nodeId in before && changes[i].nodeId in after && changes[i] !in changes[..i]
        ensures IsListed(es, changes[i].nodeId)
      {
        assert UpdateFault(changes, i, before, after, es).None?;
      }
    }
  }

  /** The encoded list is in order until it names a node a second time. */
  ghost predicate ListsTwice(cc: ConfChangeV2) {
    CONTEXT_MAGIC <= cc.context
    && exists ps :: PeersFit(ps) && cc.context == PrintContext(ps) && BadPeer(ps, DuplicatePeer)
  }

  /** Change `i` names a node that stays and that no change before it updates. */
  ghost predicate UpdateStays(changes: seq<Change>, before: set<U64>, after: set<U64>, i: nat)
    requires i < |changes|
  {
    changes[i].nodeId in before && changes[i].nodeId in after && changes[i] !in changes[..i]
  }

  ghost predicate UpdateOk(changes: seq<Change>, before: set<U64>, after: set<U64>, es: seq<Peer>, i: nat)
    requires i < |changes|
  {
    changes[i].changeType == UpdateNode && changes[i].nodeId != 0 ==>
      UpdateStays(changes, before, after, i) && IsListed(es, changes[i].nodeId)
  }

  /** The first update at fault. */
  ghost predicate FirstBadUpdate(changes: seq<Change>, before: set<U64>, after: set<U64>, es: seq<Peer>, i: nat) {
    && i < |changes| && !UpdateOk(changes, before, after, es, i)
    && forall j :: 0 <= j < i ==> UpdateOk(changes, before, after, es, j)
  }

  ghost predicate UpdateClashes(changes: seq<Change>, before: set<U64>, after: set<U64>, es: seq<Peer>) {
    exists i :: FirstBadUpdate(changes, before, after, es, i) && !UpdateStays(changes, before, after, i)
  }

  /** The first update at fault only lacks its address, or with no update at fault someone who joins lacks it. */
  ghost predicate AddressLacks(changes: seq<Change>, before: set<U64>, after: set<U64>, es: seq<Peer>) {
    || (exists i :: FirstBadUpdate(changes, before, after, es, i) && UpdateStays(changes, before, after, i))
    || ((forall j :: 0 <= j < |changes| ==> UpdateOk(changes, before, after, es, j))
        && exists id :: id in after - before && !IsListed(es, id))
  }

  /** A refusal names the first rule that is broken. */
  ghost predicate Breaks(
    m: ClusterMembership, prev: ConfState, next: ConfState, cc: ConfChangeV2, e: DeriveError)
  {
    var before, after := Effective(prev), Effective(next);
    var sound := Valid(m, prev) && 0 !in after;
    match e
    case InvalidClusterMembership => !sound
    case RetiredNodeId => sound && !NobodyRetired(m, after, cc.changes)
    case MalformedMembershipContext =>
      sound && NobodyRetired(m, after, cc.changes) && !ListsTwice(cc) && forall es :: !Carries(cc, es)
    case ConflictingPeerAddress =>
      && sound && NobodyRetired(m, after, cc.changes)
      && (ListsTwice(cc) || exists es :: Carries(cc, es) && UpdateClashes(cc.changes, before, after, es))
    case MissingPeerAddress =>
      && sound && NobodyRetired(m, after, cc.changes)
      && exists es :: Carries(cc, es) && AddressLacks(cc.changes, before, after, es)
    case UnexpectedPeerAddress =>
      && sound && NobodyRetired(m, after, cc.changes) && UpdatesStay(cc.changes, before, after)
      && exists es :: Carries(cc, es) && AllAddressed(cc.changes, before, after, es)
           && !NoneSpare(cc.changes, before, after, es)
  }

  // ----- Consequences of an accepted verdict ---------------------------------------------------

  lemma {:induction false} NoUpdateFault(changes: seq<Change>, i: nat, before: set<U64>, after: set<U64>, es: seq<Peer>)
    requires i <= |changes| && FirstUpdateFault(changes, i, before, after, es).None?
    ensures forall k :: i <= k < |changes| ==> UpdateFault(changes, k, before, after, es).None?
    decreases |changes| - i
  {
    if i < |changes| { NoUpdateFault(changes, i + 1, before, after, es); }
  }

  /** Once updates are fault-free, an id is updated once or not at all. */
  lemma {:induction false} UpdatedOnce(changes: seq<Change>, id: U64, before: set<U64>, after: set<U64>, es: seq<Peer>)
    requires id != 0 && forall k :: 0 <= k < |changes| ==> UpdateFault(changes, k, before, after, es).None?
    ensures CountChanges(changes, UpdateNode, id) == if Updates(changes, id) then 1 else 0
  {
    hide Lookup;
    if changes != [] {
      var n := |changes| - 1;
      var front := changes[..n];
      forall k | 0 <= k < n ensures UpdateFault(front, k, before, after, es).None? {
        assert UpdateFault(changes, k, before, after, es).None? && front[..k] == changes[..k];
      }
      UpdatedOnce(front, id, before, after, es);
      assert changes == front + [changes[n]];
      assert UpdateFault(changes, n, before, after, es).None?;
    }
  }

  /** Every member has an address when no address fault was found: the lookups cannot come back empty. */
  lemma AddressFound(m: ClusterMembership, prev: ConfState, next: ConfState, cc: ConfChangeV2, id: U64)
    requires Verdict(m, prev, next, cc).None? && id in Effective(next)
    ensures CountChanges(cc.changes, UpdateNode, id) == if Updates(cc.changes, id) then 1 else 0
    ensures NewAddress(m, cc, Endpoints(cc).value, id).Some? && NewAddress(m, cc, Endpoints(cc).value, id).value != []
  {
    hide Effective, CountChanges, UpdateFault, Endpoints, Structured;
    var es := Endpoints(cc).value;
    var before, after := Effective(prev), Effective(next);
    EndpointsOk(cc);
    NoUpdateFault(cc.changes, 0, before, after, es);
    UpdatedOnce(cc.changes, id, before, after, es);
    if Updates(cc.changes, id) {
      UpdateHasAddress(cc.changes, id, before, after, es);
    } else if Lookup(m.peers, id).None? {
      assert id !in before by { assert id in SetOf(Ids(m.peers)) <==> id in before; }
      assert id in after - before;
    } else {
      assert PeersOk(m.peers) by { StructuredPeers(m); }
    }
  }

  lemma StructuredPeers(m: ClusterMembership)
    requires Structured(m)
    ensures PeersOk(m.peers) && RetiredOk(m.retired)
  {
  }

  lemma UpdateHasAddress(changes: seq<Change>, id: U64, before: set<U64>, after: set<U64>, es: seq<Peer>)
    requires id != 0 && forall k :: 0 <= k < |changes| ==> UpdateFault(changes, k, before, after, es).None?
    requires Updates(changes, id)
    ensures id in before && id in after && Lookup(es, id).Some?
  {
    hide Lookup;
    var k :| 0 <= k < |changes| && changes[k] == Change(UpdateNode, id);
    assert UpdateFault(changes, k, before, after, es).None?;
  }

  lemma {:induction false} FirstUpdateFaultNone(
      changes: seq<Change>, i: nat, before: set<U64>, after: set<U64>, es: seq<Peer>)
    requires i <= |changes|
    ensures FirstUpdateFault(changes, i, before, after, es).None?
      <==> forall k :: i <= k < |changes| ==> UpdateFault(changes, k, before, after, es).None?
    decreases |changes| - i
  {
    hide UpdateFault;
    if i < |changes| { FirstUpdateFaultNone(changes, i + 1, before, after, es); }
  }

  lemma TouchesNobody(m: ClusterMembership, after: set<U64>, changes: seq<Change>)
    ensures after !! SetOf(m.retired) && !TouchesRetired(changes, m.retired) <==> NobodyRetired(m, after, changes)
  {
    if !TouchesRetired(changes, m.retired) && after !! SetOf(m.retired) {
      forall id | id in after ensures id !in m.retired { assert id in m.retired ==> id in SetOf(m.retired); }
      forall c | c in changes && c.nodeId != 0 && c.nodeId in m.retired ensures c.changeType == RemoveNode {
        var i :| 0 <= i < |changes| && changes[i] == c;
        assert !Revives(changes[i], m.retired);
      }
    }
    if TouchesRetired(changes, m.retired) {
      var i :| 0 <= i < |changes| && Revives(changes[i], m.retired);
      assert changes[i] in changes;
    }
  }

  lemma AddressFaultsMean(cc: ConfChangeV2, before: set<U64>, after: set<U64>, es: seq<Peer>)
    requires 0 !in after && StrictlySorted(Ids(es))
    requires FirstUpdateFault(cc.changes, 0, before, after, es).None?
    ensures !AddressesMissing(before, after, es) <==> forall id :: id in after - before ==> IsListed(es, id)
    ensures !AddressesUnwanted(cc, before, after, es) <==> NoneSpare(cc.changes, before, after, es)
  {
    forall id ensures Lookup(es, id).Some? <==> IsListed(es, id) { LookupMeans(es, id); }
    hide Lookup, IsListed, UpdateFault, CountChanges;
    FirstUpdateFaultNone(cc.changes, 0, before, after, es);
    forall id | id in after
      ensures Wanted(cc, before, after, id) <==> (id in before ==> Change(UpdateNode, id) in cc.changes)
    {
      UpdatedOnce(cc.changes, id, before, after, es);
    }
    if NoneSpare(cc.changes, before, after, es) {
      forall i | 0 <= i < |es| ensures Wanted(cc, before, after, es[i].nodeId) { assert es[i] in es; }
    }
    if !AddressesUnwanted(cc, before, after, es) {
      forall p | p in es
        ensures p.nodeId in after && (p.nodeId in before ==> Change(UpdateNode, p.nodeId) in cc.changes)
      {
        var i :| 0 <= i < |es| && es[i] == p;
        assert Wanted(cc, before, after, es[i].nodeId);
      }
    }
  }

  /** A change is accepted exactly when it is allowed, whatever the order of the checks. */
  lemma AcceptedExactly(m: ClusterMembership, prev: ConfState, next: ConfState, cc: ConfChangeV2)
    ensures Verdict(m, prev, next, cc).None? <==> exists es :: Allowed(m, prev, next, cc, es)
    ensures forall es :: Allowed(m, prev, next, cc, es) ==> Endpoints(cc) == Ok(es)
  {
    hide Effective, Valid, Endpoints, Carries, TouchesRetired, NobodyRetired, UpdatesStay, AllAddressed, NoneSpare;
    forall es ensures Endpoints(cc) == Ok(es) <==> Carries(cc, es) { EndpointsCarried(cc, es); }
    TouchesNobody(m, Effective(next), cc.changes);
    if Endpoints(cc).Ok? && 0 !in Effective(next) {
      var es := Endpoints(cc).value;
      EndpointsOk(cc);
      AddressesAllowed(cc, Effective(prev), Effective(next), es);
      hide AddressFault;
      assert Carries(cc, es);
      assert Verdict(m, prev, next, cc).None? <==> Allowed(m, prev, next, cc, es);
    }
    forall es | Allowed(m, prev, next, cc, es) ensures Endpoints(cc) == Ok(es) { assert Carries(cc, es); }
  }

  lemma AddressesAllowed(cc: ConfChangeV2, before: set<U64>, after: set<U64>, es: seq<Peer>)
    requires Endpoints(cc) == Ok(es) && PeersOk(es) && 0 !in after
    ensures AddressFault(cc, before, after).None? <==>
      && UpdatesStay(cc.changes, before, after) && AllAddressed(cc.changes, before, after, es)
      && NoneSpare(cc.changes, before, after, es)
  {
    hide Endpoints, FirstUpdateFault, UpdateFault, AddressesMissing, AddressesUnwanted, UpdatesStay, NoneSpare,
      IsListed;
    FirstUpdateFaultNone(cc.changes, 0, before, after, es);
    UpdateFaultsMean(cc.changes, before, after, es);
    if FirstUpdateFault(cc.changes, 0, before, after, es).None? {
      AddressFaultsMean(cc, before, after, es);
    }
  }

  lemma {:induction false} FirstUpdateFaultIs(
      changes: seq<Change>, i: nat, before: set<U64>, after: set<U64>, es: seq<Peer>) returns (k: nat)
    requires i <= |changes| && FirstUpdateFault(changes, i, before, after, es).Some?
    ensures i <= k < |changes|
    ensures UpdateFault(changes, k, before, after, es) == FirstUpdateFault(changes, i, before, after, es)
    ensures forall j :: i <= j < k ==> UpdateFault(changes, j, before, after, es).None?
    decreases |changes| - i
  {
    hide UpdateFault;
    k := i;
    if UpdateFault(changes, i, before, after, es).None? {
      k := FirstUpdateFaultIs(changes, i + 1, before, after, es);
    }
  }

  lemma UpdateFaultMeans(changes: seq<Change>, before: set<U64>, after: set<U64>, es: seq<Peer>, i: nat)
    requires i < |changes| && StrictlySorted(Ids(es))
    ensures UpdateFault(changes, i, before, after, es).None? <==> UpdateOk(changes, before, after, es, i)
    ensures UpdateFault(changes, i, before, after, es) == Some(ConflictingPeerAddress) ==>
      !UpdateStays(changes, before, after, i)
    ensures UpdateFault(changes, i, before, after, es) == Some(MissingPeerAddress) ==>
      UpdateStays(changes, before, after, i)
    ensures UpdateFault(changes, i, before, after, es) in
      {None, Some(ConflictingPeerAddress), Some(MissingPeerAddress)}
  {
    hide Lookup, IsListed;
    LookupMeans(es, changes[i].nodeId);
  }

  lemma AddressFaultBreaks(cc: ConfChangeV2, before: set<U64>, after: set<U64>, es: seq<Peer>)
    requires Endpoints(cc) == Ok(es) && PeersOk(es) && 0 !in after && AddressFault(cc, before, after).Some?
    ensures match AddressFault(cc, before, after).value
      case ConflictingPeerAddress => UpdateClashes(cc.changes, before, after, es)
      case MissingPeerAddress => AddressLacks(cc.changes, before, after, es)
      case UnexpectedPeerAddress =>
        && UpdatesStay(cc.changes, before, after) && AllAddressed(cc.changes, before, after, es)
        && !NoneSpare(cc.changes, before, after, es)
      case _ => false
  {
    hide Endpoints, FirstUpdateFault, UpdateFault, AddressesMissing, AddressesUnwanted, NoneSpare, IsListed;
    hide UpdateOk, UpdateStays, UpdatesStay, Lookup;
    forall j | 0 <= j < |cc.changes|
      ensures UpdateFault(cc.changes, j, before, after, es).None? <==> UpdateOk(cc.changes, before, after, es, j)
    {
      UpdateFaultMeans(cc.changes, before, after, es, j);
    }
    if FirstUpdateFault(cc.changes, 0, before, after, es).Some? {
      var k := FirstUpdateFaultIs(cc.changes, 0, before, after, es);
      UpdateFaultMeans(cc.changes, before, after, es, k);
      assert FirstBadUpdate(cc.changes, before, after, es, k);
    } else {
      FirstUpdateFaultNone(cc.changes, 0, before, after, es);
      UpdateFaultsMean(cc.changes, before, after, es);
      AddressFaultsMean(cc, before, after, es);
    }
  }

  /** Why the addresses of a change cannot be read. */
  lemma UnreadableMeans(cc: ConfChangeV2)
    ensures ListsTwice(cc) <==> Endpoints(cc) == Err(ConflictingPeerAddress)
    ensures Endpoints(cc).Err? ==> Endpoints(cc).error in {ConflictingPeerAddress, MalformedMembershipContext}
  {
    hide DecodedContext, PrintContext, BadPeer, PeersFit;
    ContextUnsound(cc.context, DuplicatePeer);
  }

  lemma VerdictBreaks(m: ClusterMembership, prev: ConfState, next: ConfState, cc: ConfChangeV2)
    requires Verdict(m, prev, next, cc).Some?
    ensures Breaks(m, prev, next, cc, Verdict(m, prev, next, cc).value)
  {
    hide Effective, Valid, TouchesRetired, NobodyRetired, UpdatesStay, AllAddressed, NoneSpare, Carries,
      AddressesMissing, AddressesUnwanted, FirstUpdateFault, ListsTwice, UpdateClashes, AddressLacks;
    forall es ensures Endpoints(cc) == Ok(es) <==> Carries(cc, es) { EndpointsCarried(cc, es); }
    TouchesNobody(m, Effective(next), cc.changes);
    UnreadableMeans(cc);
    hide Endpoints;
    if Endpoints(cc).Ok? && 0 !in Effective(next) {
      var es := Endpoints(cc).value;
      EndpointsOk(cc);
      if AddressFault(cc, Effective(prev), Effective(next)).Some? {
        AddressFaultBreaks(cc, Effective(prev), Effective(next), es);
      }
    }
  }

  /** What an accepted change derives, address by address. */
  lemma DerivedReached(
      m: ClusterMembership, prev: ConfState, next: ConfState, cc: ConfChangeV2, es: seq<Peer>, r: ClusterMembership,
      p: Peer)
    requires Verdict(m, prev, next, cc).None? && Derived(m, prev, next, cc, r) && Carries(cc, es)
    ensures p in r.peers <==> Reached(m, prev, next, cc, es, p)
  {
    hide Effective, Endpoints, Carries, AddressFault, Lookup, Structured;
    EndpointsCarried(cc, es);
    EndpointsOk(cc);
    StructuredPeers(m);
    LookupMeans(es, p.nodeId);
    LookupMeans(m.peers, p.nodeId);
    LookupMeans(r.peers, p.nodeId);
    assert p.nodeId in SetOf(Ids(m.peers)) <==> p.nodeId in Effective(prev);
    assert p.nodeId in SetOf(Ids(r.peers)) <==> p.nodeId in Effective(next);
    if p.nodeId in Effective(next) {
      var i :| 0 <= i < |r.peers| && Ids(r.peers)[i] == p.nodeId;
      assert r.peers[i] in r.peers && r.peers[i] == Peer(p.nodeId, r.peers[i].address);
      AddressFound(m, prev, next, cc, p.nodeId);
    }
  }

  /** The closing validation cannot fail. */
  lemma DerivedIsValid(m: ClusterMembership, prev: ConfState, next: ConfState, cc: ConfChangeV2, r: ClusterMembership)
    requires Verdict(m, prev, next, cc).None? && Derived(m, prev, next, cc, r)
    ensures Valid(r, next)
  {
    hide Effective, Endpoints, AddressFault, NewAddress, Lookup;
    StructuredPeers(m);
    forall i | 0 <= i < |r.peers| ensures r.peers[i].nodeId != 0 && r.peers[i].address != [] {
      assert Ids(r.peers)[i] in SetOf(Ids(r.peers));
      AddressFound(m, prev, next, cc, r.peers[i].nodeId);
    }
    assert 0 !in Effective(prev) by { ZeroIsNoMember(m); }
    assert 0 in r.retired <==> 0 in SetOf(r.retired);
    assert 0 in m.retired <==> 0 in SetOf(m.retired);
  }

  // ----- As it runs ----------------------------------------------------------------------------

  method CollectEffectiveMemberIds(cs: ConfState) returns (ids: seq<U64>)
    ensures StrictlySorted(ids) && SetOf(ids) == Effective(cs)
    ensures forall id :: id in ids <==>
      id in cs.voters || id in cs.votersOutgoing || id in cs.learners || id in cs.learnersNext
  {
    ListedIds(cs);
    ids := SortAndSqueeze(Listed(cs));
    assert forall id :: id in ids <==> id in SetOf(ids);
  }

  method CountChangesOf(changes: seq<Change>, t: ChangeType, id: U64) returns (n: nat)
    ensures n == CountChanges(changes, t, id)
  {
    n := 0;
    for i := 0 to |changes|
      invariant n == CountChanges(changes[..i], t, id)
    {
      assert changes[..i + 1][..i] == changes[..i];
      if changes[i].changeType == t && changes[i].nodeId == id { n := n + 1; }
    }
    assert changes[..|changes|] == changes;
  }

  /** New members first, then everyone the change mentions otherwise than to remove. */
  method CheckRetired(newIds: seq<U64>, retired: seq<U64>, changes: seq<Change>) returns (r: Option<DeriveError>)
    requires StrictlySorted(newIds) && StrictlySorted(retired)
    ensures r == if 0 in newIds then Some(InvalidClusterMembership)
      else if !(SetOf(newIds) !! SetOf(retired)) || TouchesRetired(changes, retired) then Some(RetiredNodeId)
      else None
  {
    for i := 0 to |newIds|
      invariant forall j :: 0 <= j < i ==> newIds[j] != 0 && newIds[j] !in retired
    {
      if newIds[i] == 0 { return Some(InvalidClusterMembership); }
      var gone := ContainsSorted(retired, newIds[i]);
      if gone {
        assert newIds[i] in SetOf(newIds) && newIds[i] in SetOf(retired);
        assert forall j :: i < j < |newIds| ==> newIds[j] > newIds[i];
        return Some(RetiredNodeId);
      }
    }
    for i := 0 to |changes|
      invariant forall j :: 0 <= j < i ==> !Revives(changes[j], retired)
    {
      var c := changes[i];
      if c.nodeId != 0 && c.changeType != RemoveNode {
        var gone := ContainsSorted(retired, c.nodeId);
        if gone {
          assert Revives(changes[i], retired);
          return Some(RetiredNodeId);
        }
      }
    }
    return None;
  }

  lemma AdditionsNext(changes: seq<Change>, i: nat)
    requires i < |changes|
    ensures Additions(changes[i..])
      == (if Adds(changes[i]) then [changes[i]] else []) + Additions(changes[i + 1..])
  {
    assert changes[i..][0] == changes[i] && changes[i..][1..] == changes[i + 1..];
  }

  lemma AdditionsEnd(changes: seq<Change>)
    ensures Additions(changes[|changes|..]) == []
  {
  }

  method ReadLegacy(cc: ConfChangeV2) returns (r: Result<seq<Peer>, DeriveError>)
    ensures r == LegacyEndpoints(cc)
  {
    hide Additions;
    var add: Option<Change> := None;
    assert cc.changes[0..] == cc.changes;
    for i := 0 to |cc.changes|
      invariant add.Some? ==> add.value.nodeId != 0
      invariant Additions(cc.changes) == (if add.Some? then [add.value] else []) + Additions(cc.changes[i..])
    {
      AdditionsNext(cc.changes, i);
      if cc.changes[i].changeType == AddNode || cc.changes[i].changeType == AddLearnerNode {
        if add.Some? || cc.changes[i].nodeId == 0 { return Err(MalformedMembershipContext); }
        add := Some(cc.changes[i]);
      }
    }
    AdditionsEnd(cc.changes);
    if add.None? { return Err(MalformedMembershipContext); }
    return Ok([Peer(add.value.nodeId, cc.context)]);
  }

  method ReadEndpoints(cc: ConfChangeV2) returns (r: Result<seq<Peer>, DeriveError>)
    ensures r == Endpoints(cc)
  {
    hide DecodedContext, LegacyEndpoints;
    if CONTEXT_MAGIC <= cc.context {
      var peers := DecodeMembershipContext(cc.context);
      if peers.Err? {
        var conflicting := peers.error == Unsound(DuplicatePeer);
        return Err(if conflicting then ConflictingPeerAddress else MalformedMembershipContext);
      }
      return Ok(peers.value);
    }
    if cc.context != [] {
      r := ReadLegacy(cc);
      return;
    }
    return Ok([]);
  }

  method CheckUpdates(changes: seq<Change>, previousIds: seq<U64>, newIds: seq<U64>, endpoints: seq<Peer>)
    returns (r: Option<DeriveError>)
    requires StrictlySorted(previousIds) && StrictlySorted(newIds) && StrictlySorted(Ids(endpoints))
    ensures r == FirstUpdateFault(changes, 0, SetOf(previousIds), SetOf(newIds), endpoints)
  {
    hide Lookup;
    for i := 0 to |changes|
      invariant FirstUpdateFault(changes, 0, SetOf(previousIds), SetOf(newIds), endpoints)
        == FirstUpdateFault(changes, i, SetOf(previousIds), SetOf(newIds), endpoints)
    {
      var c := changes[i];
      if c.changeType == UpdateNode && c.nodeId != 0 {
        for j := 0 to i
          invariant c !in changes[..j]
        {
          if changes[j].changeType == UpdateNode && changes[j].nodeId == c.nodeId {
            assert changes[..i][j] == c;
            return Some(ConflictingPeerAddress);
          }
        }
        var was := ContainsSorted(previousIds, c.nodeId);
        var stays := ContainsSorted(newIds, c.nodeId);
        if !was || !stays { return Some(ConflictingPeerAddress); }
        var address := AddressOf(endpoints, c.nodeId);
        if address.None? { return Some(MissingPeerAddress); }
      }
    }
    return None;
  }

  method CheckAddresses(cc: ConfChangeV2, previousIds: seq<U64>, newIds: seq<U64>, endpoints: seq<Peer>)
    returns (r: Option<DeriveError>)
    requires StrictlySorted(previousIds) && StrictlySorted(newIds) && StrictlySorted(Ids(endpoints))
    ensures r == if AddressesMissing(SetOf(previousIds), SetOf(newIds), endpoints) then Some(MissingPeerAddress)
      else if AddressesUnwanted(cc, SetOf(previousIds), SetOf(newIds), endpoints) then Some(UnexpectedPeerAddress)
      else None
  {
    hide Lookup, CountChanges;
    ghost var before, after := SetOf(previousIds), SetOf(newIds);
    for i := 0 to |newIds|
      invariant forall j :: 0 <= j < i ==> newIds[j] in before || Lookup(endpoints, newIds[j]).Some?
    {
      var was := ContainsSorted(previousIds, newIds[i]);
      var address := AddressOf(endpoints, newIds[i]);
      if !was && address.None? {
        assert newIds[i] in after - before;
        return Some(MissingPeerAddress);
      }
    }
    assert !AddressesMissing(before, after, endpoints);
    for i := 0 to |endpoints|
      invariant forall j :: 0 <= j < i ==> Wanted(cc, before, after, endpoints[j].nodeId)
    {
      var id := endpoints[i].nodeId;
      var was := ContainsSorted(previousIds, id);
      var stays := ContainsSorted(newIds, id);
      var count := CountChangesOf(cc.changes, UpdateNode, id);
      var newlyEffective := !was && stays;
      var updatesExisting := count == 1 && was && stays;
      if !newlyEffective && !updatesExisting {
        assert !Wanted(cc, before, after, endpoints[i].nodeId);
        return Some(UnexpectedPeerAddress);
      }
    }
    return None;
  }

  /** Addresses of the updated and of those not listed so far come with the change, all others stay as listed. */
  ghost function NewSource(m: ClusterMembership, cc: ConfChangeV2, endpoints: seq<Peer>, id: U64): seq<Peer> {
    if Change(UpdateNode, id) in cc.changes || !IsListed(m.peers, id) then endpoints else m.peers
  }

  lemma NewSourceHolds(m: ClusterMembership, cc: ConfChangeV2, endpoints: seq<Peer>, newIds: seq<U64>, peers: seq<Peer>,
      p: Peer)
    requires StrictlySorted(Ids(m.peers)) && StrictlySorted(Ids(endpoints))
    requires |peers| == |newIds| && forall i :: 0 <= i < |peers| ==> peers[i].nodeId == newIds[i]
    requires forall i :: 0 <= i < |peers| ==> NewAddress(m, cc, endpoints, newIds[i]) == Some(peers[i].address)
    ensures p in peers <==> p.nodeId in newIds && p in NewSource(m, cc, endpoints, p.nodeId)
  {
    hide Lookup;
    LookupMeans(m.peers, p.nodeId);
    LookupMeans(endpoints, p.nodeId);
    if p.nodeId in newIds {
      var i :| 0 <= i < |newIds| && newIds[i] == p.nodeId;
      assert peers[i] == Peer(p.nodeId, peers[i].address);
      if p in peers {
        var j :| 0 <= j < |peers| && peers[j] == p;
        assert Some(peers[i].address) == Some(peers[j].address);
      }
    }
  }

  /** Every member at its address; no lookup comes back empty. */
  method BuildPeers(m: ClusterMembership, prev: ConfState, next: ConfState, cc: ConfChangeV2,
                    newIds: seq<U64>, endpoints: seq<Peer>) returns (peers: seq<Peer>)
    requires Verdict(m, prev, next, cc).None? && Endpoints(cc) == Ok(endpoints)
    requires SetOf(newIds) == Effective(next)
    requires StrictlySorted(Ids(m.peers)) && StrictlySorted(Ids(endpoints))
    ensures Ids(peers) == newIds
    ensures forall i :: 0 <= i < |peers| ==> NewAddress(m, cc, endpoints, newIds[i]) == Some(peers[i].address)
    ensures forall p: Peer :: p in peers <==> p.nodeId in newIds && p in NewSource(m, cc, endpoints, p.nodeId)
  {
    hide Verdict, Endpoints, Lookup, CountChanges, Effective, NewSource;
    peers := [];
    for i := 0 to |newIds|
      invariant |peers| == i
      invariant forall j :: 0 <= j < i ==> peers[j].nodeId == newIds[j]
      invariant forall j :: 0 <= j < i ==> NewAddress(m, cc, endpoints, newIds[j]) == Some(peers[j].address)
    {
      var id := newIds[i];
      assert id in SetOf(newIds);
      AddressFound(m, prev, next, cc, id);
      var count := CountChangesOf(cc.changes, UpdateNode, id);
      var given := AddressOf(endpoints, id);
      var known := AddressOf(m.peers, id);
      var address := if count == 1 then given.value else if known.Some? then known.value else given.value;
      peers := peers + [Peer(id, address)];
    }
    forall p: Peer ensures p in peers <==> p.nodeId in newIds && p in NewSource(m, cc, endpoints, p.nodeId) {
      NewSourceHolds(m, cc, endpoints, newIds, peers, p);
    }
  }

  /** The retired ids, joined by those that stopped being members, in order. */
  method Retire(m: ClusterMembership, previousIds: seq<U64>, newIds: seq<U64>) returns (retired: seq<U64>)
    requires StrictlySorted(m.retired) && StrictlySorted(previousIds) && StrictlySorted(newIds)
    requires SetOf(m.retired) !! SetOf(previousIds)
    ensures StrictlySorted(retired) && SetOf(retired) == SetOf(m.retired) + (SetOf(previousIds) - SetOf(newIds))
  {
    var all := m.retired;
    for i := 0 to |previousIds|
      invariant Distinct(all)
      invariant SetOf(all) == SetOf(m.retired) + (SetOf(previousIds[..i]) - SetOf(newIds))
    {
      SetOfNext(previousIds, i);
      var id := previousIds[i];
      var stays := ContainsSorted(newIds, id);
      if !stays {
        assert id !in SetOf(previousIds[..i]) && id in SetOf(previousIds);
        assert id !in all by { assert id in all <==> id in SetOf(all); }
        DistinctAppend(all, id);
        all := all + [id];
      }
    }
    assert previousIds[..|previousIds|] == previousIds;
    var items := new U64[|all|](i requires 0 <= i < |all| => all[i]);
    assert items[..] == all;
    SortIds(items);
    retired := items[..];
  }

  /** The verdict and the derived membership, told by the rules above. */
  lemma VerdictMeans(m: ClusterMembership, prev: ConfState, next: ConfState, cc: ConfChangeV2)
    ensures match Verdict(m, prev, next, cc)
      case None => exists es :: Allowed(m, prev, next, cc, es)
      case Some(e) => Breaks(m, prev, next, cc, e) && forall es :: !Allowed(m, prev, next, cc, es)
    ensures Verdict(m, prev, next, cc).None? ==> forall r, es, p :: Derived(m, prev, next, cc, r) && Carries(cc, es) ==>
      (p in r.peers <==> Reached(m, prev, next, cc, es, p))
  {
    hide Verdict, Derived, Allowed, Carries, Reached, Breaks;
    AcceptedExactly(m, prev, next, cc);
    if Verdict(m, prev, next, cc).Some? {
      VerdictBreaks(m, prev, next, cc);
    } else {
      forall r, es, p | Derived(m, prev, next, cc, r) && Carries(cc, es)
        ensures p in r.peers <==> Reached(m, prev, next, cc, es, p)
      {
        DerivedReached(m, prev, next, cc, es, r, p);
      }
    }
  }

  /** One step of the membership; the closing validation is run and always passes. */
  method DeriveClusterMembership(m: ClusterMembership, prev: ConfState, next: ConfState, cc: ConfChangeV2)
    returns (r: Result<ClusterMembership, DeriveError>)
    ensures match Verdict(m, prev, next, cc)
      case Some(e) => r == Err(e)
      case None => r.Ok? && Derived(m, prev, next, cc, r.value) && Valid(r.value, next)
    ensures r.Ok? <==> exists es :: Allowed(m, prev, next, cc, es)
    ensures r.Ok? ==> forall es, p :: Carries(cc, es) ==> (p in r.value.peers <==> Reached(m, prev, next, cc, es, p))
    ensures r.Err? ==> Breaks(m, prev, next, cc, r.error)
  {
    VerdictMeans(m, prev, next, cc);
    hide Allowed, Carries, Reached, Breaks;
    hide Effective, Endpoints, TouchesRetired, FirstUpdateFault, AddressesMissing, AddressesUnwanted, NewAddress,
      ValidityFault, Structured;
    var bad := Validate(m, prev);
    if bad.Some? { return Err(InvalidClusterMembership); }
    StructuredPeers(m);
    var previousIds := CollectEffectiveMemberIds(prev);
    var newIds := CollectEffectiveMemberIds(next);
    assert 0 in newIds <==> 0 in Effective(next);
    var retiredFault := CheckRetired(newIds, m.retired, cc.changes);
    if retiredFault.Some? { return Err(retiredFault.value); }
    var endpoints := ReadEndpoints(cc);
    if endpoints.Err? { return Err(endpoints.error); }
    EndpointsOk(cc);
    var updateFault := CheckUpdates(cc.changes, previousIds, newIds, endpoints.value);
    if updateFault.Some? { return Err(updateFault.value); }
    var addressFault := CheckAddresses(cc, previousIds, newIds, endpoints.value);
    if addressFault.Some? { return Err(addressFault.value); }
    var peers := BuildPeers(m, prev, next, cc, newIds, endpoints.value);
    assert SetOf(m.retired) !! SetOf(previousIds) by { MembersNotRetired(m, prev); }
    var retired := Retire(m, previousIds, newIds);
    var derived := ClusterMembership(m.clusterId, peers, retired);
    assert Derived(m, prev, next, cc, derived);
    DerivedIsValid(m, prev, next, cc, derived);
    var fault := Validate(derived, next);
    if fault.Some? { return Err(InvalidClusterMembership); }
    return Ok(derived);
  }

  lemma MembersNotRetired(m: ClusterMembership, cs: ConfState)
    requires Valid(m, cs)
    ensures SetOf(m.retired) !! Effective(cs)
  {
  }

  // ----- Whole histories -----------------------------------------------------------------------

  /** A membership next to the configuration it belongs to. */
  datatype Era = Era(membership: ClusterMembership, conf: ConfState)

  ghost predicate Step(s: Era, cc: ConfChangeV2, t: Era) {
    && Verdict(s.membership, s.conf, t.conf, cc).None?
    && Derived(s.membership, s.conf, t.conf, cc, t.membership)
  }

  ghost predicate IsRun(eras: seq<Era>, changes: seq<ConfChangeV2>) {
    && |eras| == |changes| + 1
    && Valid(eras[0].membership, eras[0].conf)
    && forall i :: 0 <= i < |changes| ==> Step(eras[i], changes[i], eras[i + 1])
  }

  /** Every id that was a member in some era of the run. */
  function EverMembers(eras: seq<Era>): set<U64> {
    if eras == [] then {} else EverMembers(eras[..|eras| - 1]) + Effective(eras[|eras| - 1].conf)
  }

  lemma StepMembers(s: Era, cc: ConfChangeV2, t: Era)
    requires Step(s, cc, t)
    ensures Valid(t.membership, t.conf) && t.membership.clusterId == s.membership.clusterId
    ensures SetOf(t.membership.retired) == SetOf(s.membership.retired) + (Effective(s.conf) - Effective(t.conf))
    ensures Effective(t.conf) !! SetOf(s.membership.retired)
  {
    DerivedIsValid(s.membership, s.conf, t.conf, cc, t.membership);
  }

  /**
   * At the end of every run the members are the configuration's ids, and retired are the ids retired at the
   * start together with everyone who was ever a member and is not one now; the cluster id is the first one.
   */
  lemma {:induction false} RetiredExactly(eras: seq<Era>, changes: seq<ConfChangeV2>)
    requires IsRun(eras, changes)
    ensures var last := eras[|eras| - 1];
      && Valid(last.membership, last.conf)
      && last.membership.clusterId == eras[0].membership.clusterId
      && SetOf(last.membership.retired)
         == SetOf(eras[0].membership.retired) + (EverMembers(eras) - Effective(last.conf))
    ensures EverMembers(eras) !! SetOf(eras[0].membership.retired)
  {
    hide Effective, Verdict, Derived, Structured;
    var n := |eras| - 1;
    if n == 0 {
      assert eras[..0] == [];
      MembersNotRetired(eras[0].membership, eras[0].conf);
    } else {
      var front := eras[..n];
      assert IsRun(front, changes[..n - 1]) by {
        forall i | 0 <= i < n - 1 ensures Step(front[i], changes[..n - 1][i], front[i + 1]) {
          assert Step(eras[i], changes[i], eras[i + 1]);
        }
      }
      RetiredExactly(front, changes[..n - 1]);
      assert Step(eras[n - 1], changes[n - 1], eras[n]);
      StepMembers(eras[n - 1], changes[n - 1], eras[n]);
      MembersNotRetired(eras[n].membership, eras[n].conf);
    }
  }

  /** Once retired, always retired; and what is retired in one era is a member in no later one. */
  lemma {:induction false} NeverRevived(eras: seq<Era>, changes: seq<ConfChangeV2>, i: nat, j: nat)
    requires IsRun(eras, changes) && i <= j < |eras|
    ensures SetOf(eras[i].membership.retired) <= SetOf(eras[j].membership.retired)
    ensures SetOf(eras[i].membership.retired) !! Effective(eras[j].conf)
    ensures Effective(eras[i].conf) - Effective(eras[j].conf) <= SetOf(eras[j].membership.retired)
    decreases j
  {
    hide Effective, Verdict, Derived, Structured, Valid;
    var front := eras[..j + 1];
    assert IsRun(front, changes[..j]) by {
      forall k | 0 <= k < j ensures Step(front[k], changes[..j][k], front[k + 1]) {
        assert Step(eras[k], changes[k], eras[k + 1]);
      }
    }
    RetiredExactly(front, changes[..j]);
    MembersNotRetired(eras[j].membership, eras[j].conf);
    if i < j {
      NeverRevived(eras, changes, i, j - 1);
      assert Step(eras[j - 1], changes[j - 1], eras[j]);
      StepMembers(eras[j - 1], changes[j - 1], eras[j]);
    }
  }

  /** A member who stays keeps the address until a change updates that very node. */
  lemma AddressKept(s: Era, cc: ConfChangeV2, t: Era, id: U64)
    requires Step(s, cc, t) && id in Effective(s.conf) && id in Effective(t.conf)
    ensures Lookup(s.membership.peers, id).Some? && Lookup(t.membership.peers, id).Some?
    ensures Lookup(t.membership.peers, id) != Lookup(s.membership.peers, id) ==> Updates(cc.changes, id)
    ensures Updates(cc.changes, id) ==> Lookup(t.membership.peers, id) == Lookup(Endpoints(cc).value, id)
  {
    hide Effective, Endpoints, AddressFault, Lookup, Structured;
    assert id in SetOf(Ids(s.membership.peers)) && id in SetOf(Ids(t.membership.peers));
    var i :| 0 <= i < |t.membership.peers| && Ids(t.membership.peers)[i] == id;
  }

  /** A node that joins is reached at the address the change carries for it. */
  lemma AddressGiven(s: Era, cc: ConfChangeV2, t: Era, id: U64)
    requires Step(s, cc, t) && id in Effective(t.conf) - Effective(s.conf)
    ensures Endpoints(cc).Ok? && Lookup(t.membership.peers, id).Some?
    ensures Lookup(t.membership.peers, id) == Lookup(Endpoints(cc).value, id)
    ensures forall es, p: Peer :: Carries(cc, es) && p.nodeId == id ==> (p in t.membership.peers <==> p in es)
  {
    forall es, p: Peer | Carries(cc, es) && p.nodeId == id ensures p in t.membership.peers <==> p in es {
      DerivedReached(s.membership, s.conf, t.conf, cc, es, t.membership, p);
    }
    hide Effective, Endpoints, AddressFault, Lookup, Structured;
    assert id !in Ids(s.membership.peers) by { assert id !in SetOf(Ids(s.membership.peers)); }
    assert id in SetOf(Ids(t.membership.peers));
    var i :| 0 <= i < |t.membership.peers| && Ids(t.membership.peers)[i] == id;
  }

  /** Over a run: the address of a node that never left is changed only by updates naming it. */
  lemma {:induction false} AddressKeptOverRuns(eras: seq<Era>, changes: seq<ConfChangeV2>, i: nat, j: nat, id: U64)
    requires IsRun(eras, changes) && i <= j < |eras|
    requires forall k :: i <= k <= j ==> id in Effective(eras[k].conf)
    requires forall k :: i <= k < j ==> !Updates(changes[k].changes, id)
    ensures Lookup(eras[j].membership.peers, id) == Lookup(eras[i].membership.peers, id)
    decreases j
  {
    hide Effective, Lookup, Updates, Step;
    if i < j {
      AddressKeptOverRuns(eras, changes, i, j - 1, id);
      assert Step(eras[j - 1], changes[j - 1], eras[j]);
      AddressKept(eras[j - 1], changes[j - 1], eras[j], id);
    }
  }
}

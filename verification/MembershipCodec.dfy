/** The membership file's body and the address list that travels in a configuration change. */
module MembershipCodec {
  import opened Common
  import opened Bytes
  import opened Membership

  const MAGIC: seq<Byte> := [0x52, 0x43, 0x4c, 0x53]
  const CONTEXT_MAGIC: seq<Byte> := [0x52, 0x4d, 0x43, 0x31]
  const VERSION: nat := 1
  const PEER_MIN_SIZE: nat := 12

  datatype DecodeError = Unsound(fault: Fault) | InvalidMagic | UnsupportedVersion | TruncatedData | TrailingData

  datatype EncodeError = Invalid(fault: Fault) | MembershipTooLarge

  // ----- Peers ---------------------------------------------------------------------------------

  predicate PeersFit(peers: seq<Peer>) {
    |peers| < 0x1_0000_0000 && forall i :: 0 <= i < |peers| ==> |peers[i].address| < 0x1_0000_0000
  }

  function PrintPeer(p: Peer, rest: seq<Byte>): seq<Byte> { Little(8, p.nodeId) + (PrintBytes(p.address) + rest) }

  function PrintPeers(peers: seq<Peer>, rest: seq<Byte>): seq<Byte> {
    if peers == [] then rest else PrintPeer(peers[0], PrintPeers(peers[1..], rest))
  }

  function PrintCounted(peers: seq<Peer>, rest: seq<Byte>): seq<Byte> {
    Little(4, |peers|) + PrintPeers(peers, rest)
  }

  function ParsePeer(d: seq<Byte>): Parsed<Peer> {
    match ParseU64(d) case Short => Short case Parsed(id, d1) =>
    match ParseBytes(d1) case Short => Short case Parsed(address, d2) => Parsed(Peer(id, address), d2)
  }

  function ParsePeers(n: nat, d: seq<Byte>): Parsed<seq<Peer>> {
    if n == 0 then Parsed([], d) else
    match ParsePeer(d) case Short => Short case Parsed(p, d1) =>
    match ParsePeers(n - 1, d1) case Short => Short case Parsed(ps, d2) => Parsed([p] + ps, d2)
  }

  /** Counts are refused when the bytes at hand, less the `slack` owed to later fields, cannot hold that many peers. */
  function ParseCounted(slack: nat, d: seq<Byte>): Parsed<seq<Peer>> {
    match ParseInt(4, d) case Short => Short case Parsed(n, d1) =>
    if PEER_MIN_SIZE * n + slack > |d1| then Short else ParsePeers(n, d1)
  }

  lemma PeerPrinted(p: Peer, rest: seq<Byte>)
    requires |p.address| < 0x1_0000_0000
    ensures ParsePeer(PrintPeer(p, rest)) == Parsed(p, rest)
  {
    hide ParseBytes, PrintBytes;
    Limits();
    ParseIntPrinted(8, p.nodeId, PrintBytes(p.address) + rest);
    ParseBytesPrinted(p.address, rest);
  }

  lemma {:induction false} PeersPrinted(peers: seq<Peer>, rest: seq<Byte>)
    requires forall i :: 0 <= i < |peers| ==> |peers[i].address| < 0x1_0000_0000
    ensures ParsePeers(|peers|, PrintPeers(peers, rest)) == Parsed(peers, rest)
    ensures |PrintPeers(peers, rest)| >= PEER_MIN_SIZE * |peers| + |rest|
  {
    hide ParsePeer;
    if peers != [] {
      PeerPrinted(peers[0], PrintPeers(peers[1..], rest));
      PeersPrinted(peers[1..], rest);
      assert peers == [peers[0]] + peers[1..];
    }
  }

  lemma CountedPrinted(peers: seq<Peer>, slack: nat, rest: seq<Byte>)
    requires PeersFit(peers) && slack <= |rest|
    ensures ParseCounted(slack, PrintCounted(peers, rest)) == Parsed(peers, rest)
  {
    Limits();
    ParseIntPrinted(4, |peers|, PrintPeers(peers, rest));
    PeersPrinted(peers, rest);
  }

  lemma PeerExact(d: seq<Byte>)
    ensures ParsePeer(d).Parsed? ==>
      var r := ParsePeer(d); |r.value.address| < 0x1_0000_0000 && d == PrintPeer(r.value, r.rest)
  {
    hide ParseBytes, PrintBytes;
    if ParsePeer(d).Parsed? {
      Limits();
      ParseIntExact(8, d);
      ParseBytesExact(ParseU64(d).rest);
    }
  }

  lemma {:induction false} PeersExact(n: nat, d: seq<Byte>)
    ensures ParsePeers(n, d).Parsed? ==>
      var r := ParsePeers(n, d);
      |r.value| == n && d == PrintPeers(r.value, r.rest)
      && forall i :: 0 <= i < n ==> |r.value[i].address| < 0x1_0000_0000
  {
    hide ParsePeer, PrintPeer;
    if n > 0 && ParsePeers(n, d).Parsed? {
      PeerExact(d);
      PeersExact(n - 1, ParsePeer(d).rest);
      assert ParsePeers(n, d).value[1..] == ParsePeers(n - 1, ParsePeer(d).rest).value;
    }
  }

  lemma CountedExact(slack: nat, d: seq<Byte>)
    ensures ParseCounted(slack, d).Parsed? ==>
      var r := ParseCounted(slack, d); PeersFit(r.value) && d == PrintCounted(r.value, r.rest)
  {
    hide ParsePeers, PrintPeers;
    if ParseCounted(slack, d).Parsed? {
      Limits();
      ParseIntExact(4, d);
      PeersExact(ParseInt(4, d).value, ParseInt(4, d).rest);
    }
  }

  lemma PeerStable(d: seq<Byte>, more: seq<Byte>)
    ensures ParsePeer(d).Parsed? ==>
      ParsePeer(d + more) == Parsed(ParsePeer(d).value, ParsePeer(d).rest + more)
  {
    hide ParseBytes;
    if ParsePeer(d).Parsed? {
      ParseIntStable(8, d, more);
      ParseBytesStable(ParseU64(d).rest, more);
    }
  }

  lemma {:induction false} PeersStable(n: nat, d: seq<Byte>, more: seq<Byte>)
    ensures ParsePeers(n, d).Parsed? ==>
      ParsePeers(n, d + more) == Parsed(ParsePeers(n, d).value, ParsePeers(n, d).rest + more)
  {
    hide ParsePeer;
    if n > 0 && ParsePeers(n, d).Parsed? {
      PeerStable(d, more);
      PeersStable(n - 1, ParsePeer(d).rest, more);
    }
  }

  lemma CountedStable(slack: nat, d: seq<Byte>, more: seq<Byte>)
    ensures ParseCounted(slack, d).Parsed? ==>
      ParseCounted(slack, d + more) == Parsed(ParseCounted(slack, d).value, ParseCounted(slack, d).rest + more)
  {
    hide ParsePeers;
    if ParseCounted(slack, d).Parsed? {
      ParseIntStable(4, d, more);
      PeersStable(ParseInt(4, d).value, ParseInt(4, d).rest, more);
    }
  }

  // ----- Headers -------------------------------------------------------------------------------

  function PrintHeader(magic: seq<Byte>, rest: seq<Byte>): seq<Byte> { magic + (Little(4, VERSION) + rest) }

  datatype Scan<+T> = Scanned(value: T, rest: seq<Byte>) | Bad(error: DecodeError)

  /** The four magic bytes and the version; what is left is the body. */
  function ScanHeader(magic: seq<Byte>, d: seq<Byte>): Scan<()> {
    match Take(4, d) case Short => Bad(TruncatedData) case Parsed(tag, d1) =>
    if tag != magic then Bad(InvalidMagic) else
    match ParseInt(4, d1) case Short => Bad(TruncatedData) case Parsed(version, d2) =>
    if version != VERSION then Bad(UnsupportedVersion) else Scanned((), d2)
  }

  lemma HeaderPrinted(magic: seq<Byte>, rest: seq<Byte>)
    requires |magic| == 4
    ensures ScanHeader(magic, PrintHeader(magic, rest)) == Scanned((), rest)
  {
    Limits();
    var d := PrintHeader(magic, rest);
    assert d[..4] == magic && d[4..] == Little(4, VERSION) + rest;
    ParseIntPrinted(4, VERSION, rest);
  }

  lemma HeaderExact(magic: seq<Byte>, d: seq<Byte>)
    ensures ScanHeader(magic, d).Scanned? ==> d == PrintHeader(magic, ScanHeader(magic, d).rest)
  {
    hide Little;
    if |d| >= 4 { ParseIntExact(4, d[4..]); }
  }

  lemma HeaderStable(magic: seq<Byte>, d: seq<Byte>, more: seq<Byte>)
    ensures ScanHeader(magic, d) != Bad(TruncatedData) ==>
      ScanHeader(magic, d + more) == match ScanHeader(magic, d)
        case Scanned(v, rest) => Scanned(v, rest + more)
        case Bad(e) => Bad(e)
  {
    TakeStable(4, d, more);
    if |d| >= 4 { ParseIntStable(4, d[4..], more); }
  }

  /** Which fault of the header is reported, told by what stands where. */
  lemma HeaderRefused(magic: seq<Byte>, d: seq<Byte>)
    requires |magic| == 4
    ensures var s := ScanHeader(magic, d);
      && (s == Bad(TruncatedData) <==> |d| < 4 || (At(d, 0, magic) && |d| < 8))
      && (s == Bad(InvalidMagic) <==> |d| >= 4 && !At(d, 0, magic))
      && (s == Bad(UnsupportedVersion) <==> |d| >= 8 && At(d, 0, magic) && !At(d, 4, Little(4, VERSION)))
      && (s.Bad? ==> s.error in {TruncatedData, InvalidMagic, UnsupportedVersion})
  {
    hide Little, Value;
    Limits();
    if |d| >= 8 {
      assert d[4..][..4] == d[4..8];
      ValueIs(d[4..8], VERSION);
    }
  }

  // ----- Memberships ---------------------------------------------------------------------------

  ghost predicate Encodable(m: ClusterMembership) { Structured(m) && LengthsFit(m) }

  predicate LengthsFit(m: ClusterMembership) { PeersFit(m.peers) && |m.retired| < 0x1_0000_0000 }

  function Print(m: ClusterMembership, rest: seq<Byte>): seq<Byte> {
    PrintHeader(MAGIC, m.clusterId + PrintCounted(m.peers, PrintU64List(m.retired, rest)))
  }

  /** One peer: its id, and its address behind the length. */
  ghost predicate PeerAt(d: seq<Byte>, o: nat, p: Peer) {
    At(d, o, Little(8, p.nodeId)) && At(d, o + 8, Little(4, |p.address|)) && At(d, o + 12, p.address)
  }

  function PeerSizes(peers: seq<Peer>, k: nat): nat
    requires k <= |peers|
  {
    if k == 0 then 0 else 12 + |peers[0].address| + PeerSizes(peers[1..], k - 1)
  }

  lemma PeerLayout(d: seq<Byte>, o: nat, p: Peer, rest: seq<Byte>)
    requires o <= |d| && d[o..] == PrintPeer(p, rest)
    ensures PeerAt(d, o, p) && o + 12 + |p.address| <= |d| && d[o + 12 + |p.address|..] == rest
  {
    hide Little;
    Next(d, o, Little(8, p.nodeId), PrintBytes(p.address) + rest);
    Regroup(Little(4, |p.address|), p.address, rest);
    Next(d, o + 8, Little(4, |p.address|), p.address + rest);
    Next(d, o + 12, p.address, rest);
  }

  /** The peers stand one behind the other. */
  lemma {:induction false} PeersLayout(d: seq<Byte>, o: nat, peers: seq<Peer>, rest: seq<Byte>, k: nat)
    requires o <= |d| && d[o..] == PrintPeers(peers, rest) && k <= |peers|
    ensures k < |peers| ==> PeerAt(d, o + PeerSizes(peers, k), peers[k])
    ensures k == |peers| ==> o + PeerSizes(peers, k) <= |d| && d[o + PeerSizes(peers, k)..] == rest
    decreases k
  {
    hide PrintPeer, PeerAt;
    if peers != [] {
      PeerLayout(d, o, peers[0], PrintPeers(peers[1..], rest));
      if k > 0 { PeersLayout(d, o + 12 + |peers[0].address|, peers[1..], rest, k - 1); }
    }
  }

  /** Magic, version, cluster id, the peers behind their count, and the retired ids behind theirs. */
  lemma MembershipLayout(m: ClusterMembership, rest: seq<Byte>)
    ensures var d := Print(m, rest); var n := 28 + PeerSizes(m.peers, |m.peers|);
      && At(d, 0, MAGIC) && At(d, 4, Little(4, VERSION)) && At(d, 8, m.clusterId) && At(d, 24, Little(4, |m.peers|))
      && (forall k: nat :: k < |m.peers| ==> PeerAt(d, 28 + PeerSizes(m.peers, k), m.peers[k]))
      && At(d, n, Little(4, |m.retired|))
      && forall k: nat :: k < |m.retired| ==> RetiredAt(d, n + 4, k, m.retired[k])
  {
    hide Little, PrintPeers, PrintU64s, PeerAt, PeerSizes, At;
    var d := Print(m, rest);
    var r4 := PrintU64List(m.retired, rest);
    var r3 := PrintPeers(m.peers, r4);
    var r2 := Little(4, |m.peers|) + r3;
    var r1 := m.clusterId + r2;
    assert d[0..] == MAGIC + (Little(4, VERSION) + r1);
    Next(d, 0, MAGIC, Little(4, VERSION) + r1);
    Next(d, 4, Little(4, VERSION), r1);
    Next(d, 8, m.clusterId, r2);
    Next(d, 24, Little(4, |m.peers|), r3);
    forall k: nat | k < |m.peers| ensures PeerAt(d, 28 + PeerSizes(m.peers, k), m.peers[k]) {
      PeersLayout(d, 28, m.peers, r4, k);
    }
    var n := 28 + PeerSizes(m.peers, |m.peers|);
    PeersLayout(d, 28, m.peers, r4, |m.peers|);
    Next(d, n, Little(4, |m.retired|), PrintU64s(m.retired) + rest);
    Next(d, n + 4, PrintU64s(m.retired), rest);
    forall k: nat | k < |m.retired| ensures RetiredAt(d, n + 4, k, m.retired[k]) {
      U64sAt(m.retired, k);
      AtWithin(d, n + 4, PrintU64s(m.retired), 8 * k, Little(8, m.retired[k]));
    }
  }

  ghost predicate RetiredAt(d: seq<Byte>, o: nat, k: nat, id: U64) { At(d, o + 8 * k, Little(8, id)) }

  function ScanBody(d: seq<Byte>): (r: Parsed<ClusterMembership>) {
    match Take(16, d) case Short => Short case Parsed(id, d1) =>
    match ParseCounted(4, d1) case Short => Short case Parsed(peers, d2) =>
    match ParseU64List(d2) case Short => Short case Parsed(retired, d3) =>
    Parsed(ClusterMembership(id, peers, retired), d3)
  }

  function ScanMembership(d: seq<Byte>): Scan<ClusterMembership> {
    match ScanHeader(MAGIC, d) case Bad(e) => Bad(e) case Scanned(_, body) =>
    match ScanBody(body) case Short => Bad(TruncatedData) case Parsed(m, rest) => Scanned(m, rest)
  }

  ghost function Decoded(d: seq<Byte>): Result<ClusterMembership, DecodeError> {
    match ScanMembership(d) case Bad(e) => Err(e) case Scanned(m, rest) =>
    if rest != [] then Err(TrailingData) else
    match StructureFault(m) case Some(f) => Err(Unsound(f)) case None => Ok(m)
  }

  lemma BodyPrinted(m: ClusterMembership, rest: seq<Byte>)
    requires LengthsFit(m)
    ensures ScanBody(m.clusterId + PrintCounted(m.peers, PrintU64List(m.retired, rest))) == Parsed(m, rest)
  {
    hide ParseCounted, ParseU64List, PrintCounted;
    Limits();
    var d1 := PrintCounted(m.peers, PrintU64List(m.retired, rest));
    assert (m.clusterId + d1)[..16] == m.clusterId && (m.clusterId + d1)[16..] == d1;
    CountedPrinted(m.peers, 4, PrintU64List(m.retired, rest));
    ParseU64ListPrinted(m.retired, rest);
  }

  lemma BodyExact(d: seq<Byte>)
    ensures ScanBody(d).Parsed? ==>
      var m := ScanBody(d).value;
      LengthsFit(m) && d == m.clusterId + PrintCounted(m.peers, PrintU64List(m.retired, ScanBody(d).rest))
  {
    hide ParseCounted, ParseU64List, PrintCounted, PrintU64List;
    if ScanBody(d).Parsed? {
      Limits();
      CountedExact(4, d[16..]);
      ParseU64ListExact(ParseCounted(4, d[16..]).rest);
      assert d == d[..16] + d[16..];
    }
  }

  lemma BodyStable(d: seq<Byte>, more: seq<Byte>)
    ensures ScanBody(d).Parsed? ==> ScanBody(d + more) == Parsed(ScanBody(d).value, ScanBody(d).rest + more)
  {
    hide ParseCounted, ParseU64List;
    if ScanBody(d).Parsed? {
      TakeStable(16, d, more);
      CountedStable(4, d[16..], more);
      ParseU64ListStable(ParseCounted(4, d[16..]).rest, more);
    }
  }

  /** The accepted byte strings are exactly the encodings of sound memberships, one each. */
  lemma MembershipBijection(d: seq<Byte>, m: ClusterMembership)
    ensures Decoded(d) == Ok(m) <==> Encodable(m) && d == Print(m, [])
  {
    hide ScanHeader, ScanBody, Structured, StructureFault, PrintHeader, PrintCounted, PrintU64List;
    StructureFaultless(m);
    if Decoded(d) == Ok(m) {
      HeaderExact(MAGIC, d);
      BodyExact(ScanHeader(MAGIC, d).rest);
    }
    if Encodable(m) && d == Print(m, []) {
      HeaderPrinted(MAGIC, m.clusterId + PrintCounted(m.peers, PrintU64List(m.retired, [])));
      BodyPrinted(m, []);
    }
  }

  lemma ScanMembershipStable(d: seq<Byte>, more: seq<Byte>)
    ensures ScanMembership(d) != Bad(TruncatedData) ==>
      ScanMembership(d + more) == match ScanMembership(d)
        case Scanned(m, rest) => Scanned(m, rest + more)
        case Bad(e) => Bad(e)
  {
    hide ScanHeader, ScanBody;
    HeaderStable(MAGIC, d, more);
    if ScanHeader(MAGIC, d).Scanned? { BodyStable(ScanHeader(MAGIC, d).rest, more); }
  }

  /** Cut anywhere, an encoding is truncated; with anything behind it, it has trailing data. */
  lemma MembershipLength(m: ClusterMembership, k: nat, more: seq<Byte>)
    requires Encodable(m) && k < |Print(m, [])| && more != []
    ensures Decoded(Print(m, [])[..k]) == Err(TruncatedData)
    ensures Decoded(Print(m, []) + more) == Err(TrailingData)
  {
    hide ScanMembership, StructureFault, Print, Encodable;
    var d := Print(m, []);
    MembershipBijection(d, m);
    ScanMembershipStable(d, more);
    ScanMembershipStable(d[..k], d[k..]);
    assert d[..k] + d[k..] == d && d[k..] != [];
  }

  /** Which refusal a byte string meets. */
  lemma MembershipRefused(d: seq<Byte>, m: ClusterMembership, rest: seq<Byte>)
    ensures Decoded(d) == Err(InvalidMagic) <==> |d| >= 4 && !At(d, 0, MAGIC)
    ensures Decoded(d) == Err(UnsupportedVersion)
      <==> |d| >= 8 && At(d, 0, MAGIC) && !At(d, 4, Little(4, VERSION))
    ensures LengthsFit(m) && d == Print(m, rest) && rest != [] ==> Decoded(d) == Err(TrailingData)
    ensures LengthsFit(m) && d == Print(m, []) && StructureFault(m).Some? ==>
      Decoded(d) == Err(Unsound(StructureFault(m).value))
  {
    hide ScanHeader, ScanBody, StructureFault, PrintCounted, PrintU64List, LengthsFit, PrintHeader, Little;
    HeaderRefused(MAGIC, d);
    if LengthsFit(m) && d == Print(m, rest) {
      HeaderPrinted(MAGIC, m.clusterId + PrintCounted(m.peers, PrintU64List(m.retired, rest)));
      BodyPrinted(m, rest);
    }
    if LengthsFit(m) && d == Print(m, []) {
      HeaderPrinted(MAGIC, m.clusterId + PrintCounted(m.peers, PrintU64List(m.retired, [])));
      BodyPrinted(m, []);
    }
  }

  // ----- The address list of a configuration change --------------------------------------------

  ghost predicate ContextEncodable(peers: seq<Peer>) { PeersOk(peers) && PeersFit(peers) }

  function PrintContext(peers: seq<Peer>): seq<Byte> { PrintHeader(CONTEXT_MAGIC, PrintCounted(peers, [])) }

  function DecodedContext(d: seq<Byte>): Result<seq<Peer>, DecodeError> {
    match ScanHeader(CONTEXT_MAGIC, d) case Bad(e) => Err(e) case Scanned(_, body) =>
    match ParseCounted(0, body) case Short => Err(TruncatedData) case Parsed(peers, rest) =>
    if rest != [] then Err(TrailingData) else
    match FirstPeerFault(peers, 0) case Some(f) => Err(Unsound(f)) case None => Ok(peers)
  }

  lemma ContextBijection(d: seq<Byte>, peers: seq<Peer>)
    ensures DecodedContext(d) == Ok(peers) <==> ContextEncodable(peers) && d == PrintContext(peers)
  {
    hide ScanHeader, ParseCounted, PeersOk, FirstPeerFault, PrintHeader, PrintCounted;
    PeersFaultless(peers);
    if DecodedContext(d) == Ok(peers) {
      HeaderExact(CONTEXT_MAGIC, d);
      CountedExact(0, ScanHeader(CONTEXT_MAGIC, d).rest);
    }
    if ContextEncodable(peers) && d == PrintContext(peers) {
      HeaderPrinted(CONTEXT_MAGIC, PrintCounted(peers, []));
      CountedPrinted(peers, 0, []);
    }
  }

  lemma ContextRefused(d: seq<Byte>, peers: seq<Peer>)
    ensures DecodedContext(d) == Err(InvalidMagic) <==> |d| >= 4 && !At(d, 0, CONTEXT_MAGIC)
    ensures DecodedContext(d) == Err(UnsupportedVersion)
      <==> |d| >= 8 && At(d, 0, CONTEXT_MAGIC) && !At(d, 4, Little(4, VERSION))
    ensures PeersFit(peers) && d == PrintContext(peers) && FirstPeerFault(peers, 0).Some? ==>
      DecodedContext(d) == Err(Unsound(FirstPeerFault(peers, 0).value))
  {
    hide ScanHeader, ParseCounted, FirstPeerFault, PrintHeader, PrintCounted, PeersFit, Little;
    HeaderRefused(CONTEXT_MAGIC, d);
    if PeersFit(peers) && d == PrintContext(peers) {
      HeaderPrinted(CONTEXT_MAGIC, PrintCounted(peers, []));
      CountedPrinted(peers, 0, []);
    }
  }

  /** A context is unsound for its first bad peer, and for nothing else. */
  lemma ContextUnsound(d: seq<Byte>, f: Fault)
    ensures DecodedContext(d) == Err(Unsound(f))
      <==> exists peers :: PeersFit(peers) && d == PrintContext(peers) && BadPeer(peers, f)
  {
    hide ScanHeader, ParseCounted, FirstPeerFault, PrintHeader, PrintCounted, PeersFit, BadPeer;
    NobodyOk();
    if DecodedContext(d) == Err(Unsound(f)) {
      HeaderRefused(CONTEXT_MAGIC, d);
      HeaderExact(CONTEXT_MAGIC, d);
      var body := ScanHeader(CONTEXT_MAGIC, d).rest;
      CountedExact(0, body);
      var peers := ParseCounted(0, body).value;
      assert peers[..0] == [];
      FirstPeerFaultIs(peers, 0);
      assert d == PrintContext(peers);
    }
    if peers :| PeersFit(peers) && d == PrintContext(peers) && BadPeer(peers, f) {
      assert peers[..0] == [];
      BadPeerFound(peers, 0, f);
      ContextRefused(d, peers);
    }
  }

  // ----- As they run ---------------------------------------------------------------------------

  lemma {:induction false} PeersAppend(peers: seq<Peer>, p: Peer)
    ensures PrintPeers(peers + [p], []) == PrintPeers(peers, []) + PrintPeer(p, [])
  {
    hide PrintPeer;
    if peers == [] {
      assert [] + [p] == [p];
      assert PrintPeers([p], []) == PrintPeer(p, PrintPeers([p][1..], []));
    } else {
      assert (peers + [p])[1..] == peers[1..] + [p];
      PeersAppend(peers[1..], p);
      PeerEnds(peers[0], PrintPeers(peers[1..] + [p], []));
      PeerEnds(peers[0], PrintPeers(peers[1..], []));
    }
  }

  lemma PeerEnds(p: Peer, rest: seq<Byte>)
    ensures PrintPeer(p, rest) == PrintPeer(p, []) + rest
  {
    hide PrintBytes;
    assert PrintBytes(p.address) + [] == PrintBytes(p.address);
    Regroup(Little(8, p.nodeId), PrintBytes(p.address), rest);
  }

  lemma {:induction false} PeersEnd(peers: seq<Peer>, rest: seq<Byte>)
    ensures PrintPeers(peers, rest) == PrintPeers(peers, []) + rest
  {
    hide PrintPeer;
    if peers != [] {
      PeersEnd(peers[1..], rest);
      PeerEnds(peers[0], PrintPeers(peers[1..], rest));
      PeerEnds(peers[0], PrintPeers(peers[1..], []));
    }
  }

  /** The count, then each peer; a count or an address too long for 32 bits fails. */
  method WritePeers(buf: seq<Byte>, peers: seq<Peer>) returns (r: Option<seq<Byte>>)
    ensures r == if PeersFit(peers) then Some(buf + PrintCounted(peers, [])) else None
  {
    hide PrintPeers;
    if |peers| >= 0x1_0000_0000 { return None; }
    var out := buf + Little(4, |peers|);
    ghost var front := out;
    assert PrintPeers([], []) == [] by { PeersOfNone(); }
    for i := 0 to |peers|
      invariant out == front + PrintPeers(peers[..i], [])
      invariant forall j :: 0 <= j < i ==> |peers[j].address| < 0x1_0000_0000
    {
      PeersAppend(peers[..i], peers[i]);
      assert peers[..i + 1] == peers[..i] + [peers[i]];
      if |peers[i].address| >= 0x1_0000_0000 { return None; }
      ghost var before := out;
      out := out + Little(8, peers[i].nodeId);
      out := out + Little(4, |peers[i].address|);
      out := out + peers[i].address;
      Regroup(front, PrintPeers(peers[..i], []), PrintPeer(peers[i], []));
    }
    assert peers[..|peers|] == peers;
    Regroup(buf, Little(4, |peers|), PrintPeers(peers, []));
    return Some(out);
  }

  lemma PeersOfNone()
    ensures PrintPeers([], []) == []
  {
  }

  method Encode(m: ClusterMembership) returns (r: Result<seq<Byte>, EncodeError>)
    ensures Encodable(m) <==> r.Ok?
    ensures r.Ok? ==> r.value == Print(m, [])
    ensures r.Err? ==> r.error == (match StructureFault(m) case Some(f) => Invalid(f) case None => MembershipTooLarge)
  {
    hide Structured, StructureFault, PrintCounted, PeersFit, PrintU64List;
    StructureFaultless(m);
    var fault := ValidateStructure(m);
    if fault.Some? { return Err(Invalid(fault.value)); }
    var head := MAGIC + Little(4, VERSION) + m.clusterId;
    var peers := WritePeers(head, m.peers);
    if peers.None? || |m.retired| >= 0x1_0000_0000 { return Err(MembershipTooLarge); }
    var out := WriteAll(peers.value + Little(4, |m.retired|), m.retired);
    MembershipInOrder(m);
    return Ok(out);
  }

  lemma MembershipInOrder(m: ClusterMembership)
    ensures Print(m, []) == MAGIC + Little(4, VERSION) + m.clusterId + PrintCounted(m.peers, [])
      + Little(4, |m.retired|) + PrintU64s(m.retired)
  {
    hide PrintPeers, Little, PrintU64s;
    var tail := PrintU64List(m.retired, []);
    assert tail == Little(4, |m.retired|) + PrintU64s(m.retired);
    PeersEnd(m.peers, tail);
    Regroup(Little(4, |m.peers|), PrintPeers(m.peers, []), tail);
    var counted := PrintCounted(m.peers, []);
    assert PrintCounted(m.peers, tail) == counted + tail;
    Regroup(MAGIC, Little(4, VERSION), m.clusterId + (counted + tail));
    Regroup(MAGIC + Little(4, VERSION), m.clusterId, counted + tail);
    Regroup(MAGIC + Little(4, VERSION) + m.clusterId, counted, tail);
    Regroup(MAGIC + Little(4, VERSION) + m.clusterId + counted, Little(4, |m.retired|), PrintU64s(m.retired));
  }

  method EncodeContext(peers: seq<Peer>) returns (r: Result<seq<Byte>, EncodeError>)
    ensures ContextEncodable(peers) <==> r.Ok?
    ensures r.Ok? ==> r.value == PrintContext(peers)
    ensures r.Err? ==>
      r.error == (match FirstPeerFault(peers, 0) case Some(f) => Invalid(f) case None => MembershipTooLarge)
  {
    hide PeersOk, FirstPeerFault, PrintCounted, PeersFit;
    PeersFaultless(peers);
    var fault := ValidateEndpoints(peers);
    if fault.Some? { return Err(Invalid(fault.value)); }
    var out := WritePeers(CONTEXT_MAGIC + Little(4, VERSION), peers);
    if out.None? { return Err(MembershipTooLarge); }
    Regroup(CONTEXT_MAGIC, Little(4, VERSION), PrintCounted(peers, []));
    return Ok(out.value);
  }

  ghost predicate Scans<T>(d: Decoder, spec: Parsed<T>, r: Option<T>)
    reads d
  {
    && d.Valid()
    && match spec
       case Parsed(v, rest) => r == Some(v) && d.Rest() == rest
       case Short => r == None
  }

  method ReadHeader(d: Decoder, magic: seq<Byte>) returns (r: Option<DecodeError>)
    requires d.Valid()
    modifies d`pos
    ensures d.Valid()
    ensures match ScanHeader(magic, old(d.Rest()))
      case Scanned(_, rest) => r == None && d.Rest() == rest
      case Bad(e) => r == Some(e)
  {
    var tag := d.TakeBytes(4);
    if tag.None? { return Some(TruncatedData); }
    if tag.value != magic { return Some(InvalidMagic); }
    var version := d.ReadInt(4);
    if version.None? { return Some(TruncatedData); }
    if version.value != VERSION { return Some(UnsupportedVersion); }
    return None;
  }

  method ReadPeer(d: Decoder) returns (r: Option<Peer>)
    requires d.Valid()
    modifies d`pos
    ensures Scans(d, ParsePeer(old(d.Rest())), r)
  {
    hide ParseU64, ParseBytes;
    var id := d.ReadU64();
    if id.None? { return None; }
    var address := d.ReadBytes();
    if address.None? { return None; }
    return Some(Peer(id.value, address.value));
  }

  ghost function Prefixed(front: seq<Peer>, r: Parsed<seq<Peer>>): Parsed<seq<Peer>> {
    match r case Parsed(ps, rest) => Parsed(front + ps, rest) case Short => Short
  }

  lemma PrefixedByNothing(r: Parsed<seq<Peer>>)
    ensures Prefixed([], r) == r
  {
    if r.Parsed? { assert [] + r.value == r.value; }
  }

  lemma PrefixedTwice(a: seq<Peer>, b: seq<Peer>, r: Parsed<seq<Peer>>)
    ensures Prefixed(a + b, r) == Prefixed(a, Prefixed(b, r))
  {
    if r.Parsed? { assert a + b + r.value == a + (b + r.value); }
  }

  method ReadPeers(d: Decoder, slack: nat) returns (r: Option<seq<Peer>>)
    requires d.Valid()
    modifies d`pos
    ensures Scans(d, ParseCounted(slack, old(d.Rest())), r)
  {
    hide ParsePeer;
    var n := d.ReadInt(4);
    if n.None? { return None; }
    var remaining := d.Remaining();
    if PEER_MIN_SIZE * n.value + slack > remaining { return None; }
    ghost var before := d.Rest();
    var peers: seq<Peer> := [];
    PrefixedByNothing(ParsePeers(n.value, before));
    for i := 0 to n.value
      invariant d.Valid()
      invariant ParsePeers(n.value, before) == Prefixed(peers, ParsePeers(n.value - i, d.Rest()))
    {
      var p := ReadPeer(d);
      if p.None? { return None; }
      PrefixedTwice(peers, [p.value], ParsePeers(n.value - i - 1, d.Rest()));
      peers := peers + [p.value];
    }
    assert peers + [] == peers;
    return Some(peers);
  }

  method DecodeMembership(data: seq<Byte>) returns (r: Result<ClusterMembership, DecodeError>)
    ensures r == Decoded(data)
  {
    hide ScanHeader, ParseCounted, ParseU64List, StructureFault;
    var d := new Decoder(data);
    assert d.Rest() == data;
    var bad := ReadHeader(d, MAGIC);
    if bad.Some? { return Err(bad.value); }
    var id := d.TakeBytes(16);
    if id.None? { return Err(TruncatedData); }
    var peers := ReadPeers(d, 4);
    if peers.None? { return Err(TruncatedData); }
    var retired := d.ReadU64List();
    if retired.None? { return Err(TruncatedData); }
    var left := d.Remaining();
    if left != 0 { return Err(TrailingData); }
    var m := ClusterMembership(id.value, peers.value, retired.value);
    var fault := ValidateStructure(m);
    if fault.Some? { return Err(Unsound(fault.value)); }
    return Ok(m);
  }

  method DecodeMembershipContext(data: seq<Byte>) returns (r: Result<seq<Peer>, DecodeError>)
    ensures r == DecodedContext(data)
  {
    hide ScanHeader, ParseCounted, FirstPeerFault;
    var d := new Decoder(data);
    assert d.Rest() == data;
    var bad := ReadHeader(d, CONTEXT_MAGIC);
    if bad.Some? { return Err(bad.value); }
    var peers := ReadPeers(d, 0);
    if peers.None? { return Err(TruncatedData); }
    var left := d.Remaining();
    if left != 0 { return Err(TrailingData); }
    var fault := ValidateEndpoints(peers.value);
    if fault.Some? { return Err(Unsound(fault.value)); }
    return Ok(peers.value);
  }
}

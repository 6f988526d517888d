/** The migration intent store: one checksummed record per group, written so that no crash leaves half of one. */
module IntentStore {
  import opened Common
  import opened Bytes
  import opened Sorting

  type U32 = n: int | 0 <= n < 0x1_0000_0000

  datatype Intent = Intent(
    groupId: U64, source: U64, target: U64, address: seq<Byte>, timeoutTicks: U64, stableTicks: U32)

  // ----- Records -------------------------------------------------------------------------------

  const MAGIC: seq<Byte> := [0x52, 0x4d, 0x49, 0x47]
  const VERSION: nat := 1
  const FIXED_SIZE: nat := 48
  const CHECKSUM_SIZE: nat := 4

  datatype StoreError = MigrationIntentCorrupt | UnsupportedVersion | GroupOperationBackpressure | MigrationIntentIo

  /** The checksum is a parameter: any function of the bytes will do. */
  type Checksum = seq<Byte> -> U32

  predicate Encodable(i: Intent) {
    && i.groupId != 0 && i.source != 0 && i.target != 0 && i.timeoutTicks != 0 && i.stableTicks != 0
    && 0 < |i.address| < 0x1_0000_0000
  }

  /** The part of the record after the version, up to the checksum. */
  function Fields(i: Intent): (r: seq<Byte>)
    ensures |r| == 40 + |i.address|
  {
    Little(8, i.groupId) + (Little(8, i.source) + (Little(8, i.target) + (Little(8, i.timeoutTicks)
      + (Little(4, i.stableTicks) + (Little(4, |i.address|) + i.address)))))
  }

  function Payload(i: Intent): (r: seq<Byte>)
    ensures |r| == FIXED_SIZE + |i.address|
  {
    MAGIC + (Little(4, VERSION) + Fields(i))
  }

  function Record(crc: Checksum, i: Intent): seq<Byte> { Payload(i) + Little(4, crc(Payload(i))) }

  /** The fields, with the address running to the end. */
  function ParseFields(d: seq<Byte>): Option<Intent> {
    match ParseU64(d) case Short => None case Parsed(group, d1) =>
    match ParseU64(d1) case Short => None case Parsed(source, d2) =>
    match ParseU64(d2) case Short => None case Parsed(target, d3) =>
    match ParseU64(d3) case Short => None case Parsed(timeout, d4) =>
    match ParseInt(4, d4) case Short => None case Parsed(stable, d5) =>
    match ParseInt(4, d5) case Short => None case Parsed(n, address) =>
    if n != |address| || stable >= 0x1_0000_0000 then None
    else Some(Intent(group, source, target, address, timeout, stable))
  }

  function Decoded(crc: Checksum, d: seq<Byte>, maxAddress: nat): Result<Intent, StoreError> {
    if |d| < FIXED_SIZE + CHECKSUM_SIZE || d[..4] != MAGIC then Err(MigrationIntentCorrupt)
    else if Value(d[4..8]) != VERSION then Err(UnsupportedVersion)
    else if crc(d[..|d| - 4]) != Value(d[|d| - 4..]) then Err(MigrationIntentCorrupt)
    else match ParseFields(d[8..|d| - 4])
      case Some(i) =>
        if Encodable(i) && |i.address| <= maxAddress then Ok(i) else Err(MigrationIntentCorrupt)
      case None => Err(MigrationIntentCorrupt)
  }

  /** Where everything stands in a record; the checksum covers all that comes before it. */
  lemma RecordLayout(crc: Checksum, i: Intent)
    ensures var d := Record(crc, i); var n := 48 + |i.address|;
      && |d| == n + 4 && At(d, 0, MAGIC) && At(d, 4, Little(4, VERSION))
      && At(d, 8, Little(8, i.groupId)) && At(d, 16, Little(8, i.source)) && At(d, 24, Little(8, i.target))
      && At(d, 32, Little(8, i.timeoutTicks)) && At(d, 40, Little(4, i.stableTicks))
      && At(d, 44, Little(4, |i.address|)) && At(d, 48, i.address) && At(d, n, Little(4, crc(d[..n])))
  {
    hide Little;
    var d, n := Record(crc, i), 48 + |i.address|;
    var sum := Little(4, crc(Payload(i)));
    Next(d, 0, Payload(i), sum);
    assert d[..n] == Payload(i) && d[n..] == sum + [];
    Next(d, n, sum, []);
    PayloadLayout(i);
    hide Payload, At;
    var p := Payload(i);
    forall o: nat, part: seq<Byte> | At(p, o, part) ensures At(d, o, part) { AtWithin(d, 0, p, o, part); }
  }

  lemma PayloadLayout(i: Intent)
    ensures var p := Payload(i);
      && At(p, 0, MAGIC) && At(p, 4, Little(4, VERSION))
      && At(p, 8, Little(8, i.groupId)) && At(p, 16, Little(8, i.source)) && At(p, 24, Little(8, i.target))
      && At(p, 32, Little(8, i.timeoutTicks)) && At(p, 40, Little(4, i.stableTicks))
      && At(p, 44, Little(4, |i.address|)) && At(p, 48, i.address)
  {
    hide Little, At;
    var p := Payload(i);
    var r5 := Little(4, |i.address|) + i.address;
    var r4 := Little(4, i.stableTicks) + r5;
    var r3 := Little(8, i.timeoutTicks) + r4;
    var r2 := Little(8, i.target) + r3;
    var r1 := Little(8, i.source) + r2;
    assert p[0..] == MAGIC + (Little(4, VERSION) + (Little(8, i.groupId) + r1));
    Next(p, 0, MAGIC, Little(4, VERSION) + (Little(8, i.groupId) + r1));
    Next(p, 4, Little(4, VERSION), Little(8, i.groupId) + r1);
    Next(p, 8, Little(8, i.groupId), r1);
    Next(p, 16, Little(8, i.source), r2);
    Next(p, 24, Little(8, i.target), r3);
    Next(p, 32, Little(8, i.timeoutTicks), r4);
    Next(p, 40, Little(4, i.stableTicks), r5);
    Next(p, 44, Little(4, |i.address|), i.address);
    assert p[48..] == i.address + [];
    Next(p, 48, i.address, []);
  }

  lemma FieldsPrinted(i: Intent)
    requires |i.address| < 0x1_0000_0000
    ensures ParseFields(Fields(i)) == Some(i)
  {
    hide Little, Value, Limit;
    Limits();
    var d5 := Little(4, |i.address|) + i.address;
    var d4 := Little(4, i.stableTicks) + d5;
    var d3 := Little(8, i.timeoutTicks) + d4;
    var d2 := Little(8, i.target) + d3;
    ParseIntPrinted(8, i.groupId, Little(8, i.source) + d2);
    ParseIntPrinted(8, i.source, d2);
    ParseIntPrinted(8, i.target, d3);
    ParseIntPrinted(8, i.timeoutTicks, d4);
    ParseIntPrinted(4, i.stableTicks, d5);
    ParseIntPrinted(4, |i.address|, i.address);
  }

  lemma FieldsExact(d: seq<Byte>)
    ensures ParseFields(d).Some? ==> d == Fields(ParseFields(d).value)
  {
    hide Little, Value, Limit, ParseInt;
    if ParseFields(d).Some? {
      ParseIntExact(8, d);
      var d1 := ParseU64(d).rest;
      ParseIntExact(8, d1);
      var d2 := ParseU64(d1).rest;
      ParseIntExact(8, d2);
      var d3 := ParseU64(d2).rest;
      ParseIntExact(8, d3);
      var d4 := ParseU64(d3).rest;
      ParseIntExact(4, d4);
      ParseIntExact(4, ParseInt(4, d4).rest);
    }
  }

  /** Exactly the records of valid intents are accepted, one record each, whatever the checksum function is. */
  lemma RecordBijection(crc: Checksum, d: seq<Byte>, maxAddress: nat, i: Intent)
    ensures Decoded(crc, d, maxAddress) == Ok(i)
      <==> Encodable(i) && |i.address| <= maxAddress && d == Record(crc, i)
  {
    if Encodable(i) && |i.address| <= maxAddress && d == Record(crc, i) { RecordAccepted(crc, maxAddress, i); }
    if Decoded(crc, d, maxAddress) == Ok(i) { AcceptedIsRecord(crc, d, maxAddress, i); }
  }

  lemma RecordAccepted(crc: Checksum, maxAddress: nat, i: Intent)
    requires Encodable(i) && |i.address| <= maxAddress
    ensures Decoded(crc, Record(crc, i), maxAddress) == Ok(i)
  {
    hide Little, Value, Fields, ParseFields;
    Limits();
    var d := Record(crc, i);
    var n := |d| - 4;
    assert d[..n] == Payload(i) && d[n..] == Little(4, crc(Payload(i)));
    assert d[..4] == MAGIC && d[4..8] == Little(4, VERSION) && d[8..n] == Fields(i);
    ValueOfLittle(4, crc(Payload(i)));
    ValueOfLittle(4, VERSION);
    FieldsPrinted(i);
  }

  lemma AcceptedIsRecord(crc: Checksum, d: seq<Byte>, maxAddress: nat, i: Intent)
    requires Decoded(crc, d, maxAddress) == Ok(i)
    ensures Encodable(i) && |i.address| <= maxAddress && d == Record(crc, i)
  {
    hide Little, Value, Fields, ParseFields;
    var n := |d| - 4;
    LittleOfValue(d[4..8]);
    LittleOfValue(d[n..]);
    FieldsExact(d[8..n]);
    assert d[..n] == d[..4] + (d[4..8] + d[8..n]);
    assert d == d[..n] + d[n..];
  }

  /** The record is laid out in a buffer of its exact size, field by field. */
  method EncodeRecord(crc: Checksum, i: Intent) returns (r: Result<seq<Byte>, StoreError>)
    ensures r == if Encodable(i) then Ok(Record(crc, i)) else Err(MigrationIntentCorrupt)
    ensures r.Ok? <==>
      && i.groupId > 0 && i.source > 0 && i.target > 0 && i.timeoutTicks > 0 && i.stableTicks > 0
      && 0 < |i.address| < 0x1_0000_0000
  {
    hide Little, Payload;
    if i.groupId == 0 || i.source == 0 || i.target == 0 || i.timeoutTicks == 0 || i.stableTicks == 0
      || i.address == []
    {
      return Err(MigrationIntentCorrupt);
    }
    if |i.address| >= 0x1_0000_0000 { return Err(MigrationIntentCorrupt); }
    var bytes := new Byte[FIXED_SIZE + CHECKSUM_SIZE + |i.address|](_ => 0);
    var offset := WritePayload(bytes, i);
    offset := WriteAt(bytes, offset, Little(4, crc(bytes[..offset])));
    assert bytes[..offset] == bytes[..];
    return Ok(bytes[..]);
  }

  method WritePayload(bytes: array<Byte>, i: Intent) returns (offset: nat)
    requires bytes.Length == FIXED_SIZE + CHECKSUM_SIZE + |i.address|
    modifies bytes
    ensures offset == FIXED_SIZE + |i.address| && bytes[..offset] == Payload(i)
  {
    hide Little, Payload;
    PayloadInOrder(i);
    offset := WriteIds(bytes, i);
    offset := WriteAt(bytes, offset, Little(8, i.timeoutTicks));
    offset := WriteAt(bytes, offset, Little(4, i.stableTicks));
    offset := WriteAt(bytes, offset, Little(4, |i.address|));
    offset := WriteAt(bytes, offset, i.address);
  }

  method WriteIds(bytes: array<Byte>, i: Intent) returns (offset: nat)
    requires bytes.Length >= 32
    modifies bytes
    ensures offset == 32
    ensures bytes[..offset]
      == MAGIC + Little(4, VERSION) + Little(8, i.groupId) + Little(8, i.source) + Little(8, i.target)
  {
    hide Little;
    offset := WriteAt(bytes, 0, MAGIC);
    offset := WriteAt(bytes, offset, Little(4, VERSION));
    offset := WriteAt(bytes, offset, Little(8, i.groupId));
    offset := WriteAt(bytes, offset, Little(8, i.source));
    offset := WriteAt(bytes, offset, Little(8, i.target));
  }

  /** `part` goes behind what is already written. */
  method WriteAt(bytes: array<Byte>, offset: nat, part: seq<Byte>) returns (next: nat)
    requires offset + |part| <= bytes.Length
    modifies bytes
    ensures next == offset + |part| && bytes[..next] == old(bytes[..offset]) + part
  {
    for k := 0 to |part|
      invariant bytes[..offset + k] == old(bytes[..offset]) + part[..k]
    {
      bytes[offset + k] := part[k];
      assert part[..k + 1] == part[..k] + [part[k]];
    }
    assert part[..|part|] == part;
    next := offset + |part|;
  }

  lemma PayloadInOrder(i: Intent)
    ensures Payload(i) == MAGIC + Little(4, VERSION) + Little(8, i.groupId) + Little(8, i.source) + Little(8, i.target)
      + Little(8, i.timeoutTicks) + Little(4, i.stableTicks) + Little(4, |i.address|) + i.address
  {
    hide Little;
    var d5 := Little(4, |i.address|) + i.address;
    var d4 := Little(4, i.stableTicks) + d5;
    var d3 := Little(8, i.timeoutTicks) + d4;
    var d2 := Little(8, i.target) + d3;
    var d1 := Little(8, i.source) + d2;
    var h1 := MAGIC + Little(4, VERSION) + Little(8, i.groupId);
    var h2 := h1 + Little(8, i.source);
    var h3 := h2 + Little(8, i.target);
    var h4 := h3 + Little(8, i.timeoutTicks);
    Regroup(MAGIC, Little(4, VERSION), Little(8, i.groupId) + d1);
    Regroup(MAGIC + Little(4, VERSION), Little(8, i.groupId), d1);
    Regroup(h1, Little(8, i.source), d2);
    Regroup(h2, Little(8, i.target), d3);
    Regroup(h3, Little(8, i.timeoutTicks), d4);
    Regroup(h4, Little(4, i.stableTicks), d5);
    Regroup(h4 + Little(4, i.stableTicks), Little(4, |i.address|), i.address);
  }

  method DecodeRecord(crc: Checksum, bytes: seq<Byte>, maxAddress: nat) returns (r: Result<Intent, StoreError>)
    ensures r == Decoded(crc, bytes, maxAddress)
    ensures r == Err(UnsupportedVersion)
      <==> |bytes| >= 52 && At(bytes, 0, MAGIC) && !At(bytes, 4, Little(4, VERSION))
    ensures r.Err? ==> r.error in {UnsupportedVersion, MigrationIntentCorrupt}
  {
    hide Value, Little;
    if |bytes| >= 8 {
      Limits();
      ValueIs(bytes[4..8], VERSION);
    }
    if |bytes| < FIXED_SIZE + CHECKSUM_SIZE || bytes[..4] != MAGIC { return Err(MigrationIntentCorrupt); }
    var version := ReadLittle(bytes[4..8]);
    if version != VERSION { return Err(UnsupportedVersion); }
    var payload := bytes[..|bytes| - 4];
    var sum := ReadLittle(bytes[|bytes| - 4..]);
    if crc(payload) != sum { return Err(MigrationIntentCorrupt); }
    var d := new Decoder(bytes[8..|bytes| - 4]);
    assert d.Rest() == bytes[8..|bytes| - 4];
    var i := ReadFields(d);
    if i.None? { return Err(MigrationIntentCorrupt); }
    if !Encodable(i.value) || |i.value.address| > maxAddress { return Err(MigrationIntentCorrupt); }
    return Ok(i.value);
  }

  method ReadFields(d: Decoder) returns (r: Option<Intent>)
    requires d.Valid()
    modifies d`pos
    ensures r == ParseFields(old(d.Rest()))
  {
    hide ParseInt, ParseU64;
    var group := d.ReadU64();
    if group.None? { return None; }
    var source := d.ReadU64();
    if source.None? { return None; }
    var target := d.ReadU64();
    if target.None? { return None; }
    var timeout := d.ReadU64();
    if timeout.None? { return None; }
    var stable := d.ReadInt(4);
    if stable.None? { return None; }
    var n := d.ReadInt(4);
    if n.None? { return None; }
    if n.value != |d.data| - d.pos || stable.value >= 0x1_0000_0000 { return None; }
    return Some(Intent(group.value, source.value, target.value, d.data[d.pos..], timeout.value, stable.value));
  }

  // ----- The disk ------------------------------------------------------------------------------

  datatype Name = Final(g: U64) | Temp(g: U64)

  type Dir = map<Name, nat>

  /** File contents by inode, which of them are synced, and every directory version a crash could still bring back. */
  datatype Disk = Disk(current: Dir, candidates: set<Dir>, content: map<nat, seq<Byte>>, synced: set<nat>)

  function Versioned(d: Disk, dir: Dir): Disk { d.(current := dir, candidates := d.candidates + {dir}) }

  /** Opening with truncation reuses the temporary file if there is one. */
  function OpenTemp(d: Disk, g: U64, unused: nat): Disk {
    if Temp(g) in d.current then Truncated(d, d.current[Temp(g)])
    else Versioned(Truncated(d, unused), d.current[Temp(g) := unused])
  }

  function Truncated(d: Disk, inode: nat): Disk {
    d.(content := d.content[inode := []], synced := d.synced - {inode})
  }

  function WriteTemp(d: Disk, g: U64, bytes: seq<Byte>): Disk
    requires Temp(g) in d.current
  {
    d.(content := d.content[d.current[Temp(g)] := bytes], synced := d.synced - {d.current[Temp(g)]})
  }

  function SyncTemp(d: Disk, g: U64): Disk
    requires Temp(g) in d.current
  {
    d.(synced := d.synced + {d.current[Temp(g)]})
  }

  function RenameTemp(d: Disk, g: U64): Disk
    requires Temp(g) in d.current
  {
    Versioned(d, (d.current - {Temp(g)})[Final(g) := d.current[Temp(g)]])
  }

  function Unlink(d: Disk, g: U64): Disk { Versioned(d, d.current - {Final(g)}) }

  /** Only now is the current directory the one a crash brings back. */
  function SyncDir(d: Disk): Disk { d.(candidates := {d.current}) }

  /** After a crash any version may be there, and what was not synced may hold anything. */
  ghost predicate CrashesTo(d: Disk, e: Disk) {
    && e.current in d.candidates && e.candidates == {e.current}
    && e.synced == d.synced && e.content.Keys == d.content.Keys
    && forall i :: i in d.synced && i in d.content ==> e.content[i] == d.content[i]
  }

  function Stored(d: Disk, dir: Dir, g: U64): Option<seq<Byte>> {
    if Final(g) in dir && dir[Final(g)] in d.content then Some(d.content[dir[Final(g)]]) else None
  }

  // ----- What holds at every moment ------------------------------------------------------------

  ghost predicate OneNameEach(dir: Dir) {
    forall a, b :: a in dir && b in dir && dir[a] == dir[b] ==> a == b
  }

  /** Final names lead to synced files, and the file about to be overwritten has no final name in any version. */
  ghost predicate Safe(d: Disk) {
    && d.current in d.candidates
    && d.synced <= d.content.Keys
    && (forall dir, a :: dir in d.candidates && a in dir ==> dir[a] in d.content)
    && (forall dir :: dir in d.candidates ==> OneNameEach(dir))
    && (forall dir, g :: dir in d.candidates && Final(g) in dir ==> dir[Final(g)] in d.synced)
    && (forall dir, g, h :: dir in d.candidates && Temp(g) in d.current && Final(h) in dir ==>
          d.current[Temp(g)] != dir[Final(h)])
  }

  /**
   * Whatever version of `e` comes back shows what one version of `d` showed, for every group; only
   * for `g` it may show `extra` instead.
   */
  ghost predicate OldOrNew(d: Disk, e: Disk, g: U64, extra: Option<seq<Byte>>) {
    forall dir :: dir in e.candidates ==> ShownBefore(d, e, dir, g, extra)
  }

  ghost predicate ShownBefore(d: Disk, e: Disk, dir: Dir, g: U64, extra: Option<seq<Byte>>) {
    exists prior :: prior in d.candidates && ShowsBut(d, prior, e, dir, g, extra)
  }

  ghost predicate ShowsBut(d: Disk, prior: Dir, e: Disk, dir: Dir, g: U64, extra: Option<seq<Byte>>) {
    forall h :: Stored(e, dir, h) == Stored(d, prior, h) || (h == g && Stored(e, dir, h) == extra)
  }

  // ----- Each effect keeps it ------------------------------------------------------------------

  /** `e` differs from `d` only in files without a final name, and in versions whose final names are those of `d`. */
  ghost predicate SameFinals(d: Disk, e: Disk) {
    && (forall dir :: dir in e.candidates ==> exists prior :: prior in d.candidates && FinalsAgree(dir, prior))
    && (forall dir, h :: dir in d.candidates && Final(h) in dir && dir[Final(h)] in d.content ==>
          dir[Final(h)] in e.content && e.content[dir[Final(h)]] == d.content[dir[Final(h)]])
  }

  ghost predicate FinalsAgree(a: Dir, b: Dir) {
    forall h :: (Final(h) in a <==> Final(h) in b) && (Final(h) in a ==> a[Final(h)] == b[Final(h)])
  }

  lemma SameFinalsShow(d: Disk, e: Disk, g: U64, extra: Option<seq<Byte>>)
    requires Safe(d) && SameFinals(d, e)
    ensures OldOrNew(d, e, g, extra)
  {
    forall dir | dir in e.candidates ensures ShownBefore(d, e, dir, g, extra) {
      var prior :| prior in d.candidates && FinalsAgree(dir, prior);
      forall h ensures Stored(d, prior, h) == Stored(e, dir, h) {
        if Final(h) in dir { assert prior[Final(h)] in d.content; }
      }
      assert ShowsBut(d, prior, e, dir, g, extra);
    }
  }

  lemma TruncateSafe(d: Disk, inode: nat)
    requires Safe(d) && forall dir, h :: dir in d.candidates && Final(h) in dir ==> dir[Final(h)] != inode
    ensures Safe(Truncated(d, inode)) && SameFinals(d, Truncated(d, inode))
  {
    forall dir | dir in d.candidates ensures FinalsAgree(dir, dir) {}
  }

  lemma NameSafe(d: Disk, g: U64, inode: nat)
    requires Safe(d) && Temp(g) !in d.current && inode in d.content
    requires forall dir, a :: dir in d.candidates && a in dir ==> dir[a] != inode
    ensures Safe(Versioned(d, d.current[Temp(g) := inode]))
    ensures SameFinals(d, Versioned(d, d.current[Temp(g) := inode]))
  {
    var dir := d.current[Temp(g) := inode];
    assert OneNameEach(d.current);
    assert FinalsAgree(dir, d.current);
    forall old0 | old0 in d.candidates ensures FinalsAgree(old0, old0) {}
  }

  lemma UnusedIsFree(d: Disk, unused: nat)
    requires Safe(d) && unused !in d.content
    ensures forall dir, a :: dir in d.candidates && a in dir ==> dir[a] != unused
    ensures forall dir, h :: dir in d.candidates && Final(h) in dir ==> dir[Final(h)] != unused
  {
  }

  lemma TempIsFree(d: Disk, g: U64)
    requires Safe(d)
    ensures Temp(g) in d.current ==>
      forall dir, h :: dir in d.candidates && Final(h) in dir ==> dir[Final(h)] != d.current[Temp(g)]
  {
  }

  lemma OpenSafe(d: Disk, g: U64, unused: nat, extra: Option<seq<Byte>>)
    requires Safe(d) && unused !in d.content
    ensures Safe(OpenTemp(d, g, unused)) && Temp(g) in OpenTemp(d, g, unused).current
    ensures OldOrNew(d, OpenTemp(d, g, unused), g, extra)
  {
    hide Safe, SameFinals, OldOrNew, ShowsBut, Stored, FinalsAgree;
    UnusedIsFree(d, unused);
    TempIsFree(d, g);
    if Temp(g) in d.current {
      TruncateSafe(d, d.current[Temp(g)]);
      SameFinalsShow(d, OpenTemp(d, g, unused), g, extra);
    } else {
      var e := Truncated(d, unused);
      TruncateSafe(d, unused);
      SameFinalsShow(d, e, g, extra);
      NameSafe(e, g, unused);
      SameFinalsShow(e, OpenTemp(d, g, unused), g, extra);
      Chain(d, e, OpenTemp(d, g, unused), g, extra);
    }
  }

  lemma WriteSafe(d: Disk, g: U64, bytes: seq<Byte>)
    requires Safe(d) && Temp(g) in d.current
    ensures Safe(WriteTemp(d, g, bytes)) && SameFinals(d, WriteTemp(d, g, bytes))
  {
    forall dir | dir in d.candidates ensures FinalsAgree(dir, dir) {}
  }

  lemma SyncSafe(d: Disk, g: U64)
    requires Safe(d) && Temp(g) in d.current
    ensures Safe(SyncTemp(d, g)) && SameFinals(d, SyncTemp(d, g))
  {
    forall dir | dir in d.candidates ensures FinalsAgree(dir, dir) {}
  }

  lemma WriteStep(start: Disk, d: Disk, g: U64, bytes: seq<Byte>, record: seq<Byte>)
    requires Safe(d) && Temp(g) in d.current && OldOrNew(start, d, g, Some(record))
    ensures var e := WriteTemp(d, g, bytes);
      && Safe(e) && OldOrNew(start, e, g, Some(record))
      && Temp(g) in e.current && e.current[Temp(g)] in e.content && e.content[e.current[Temp(g)]] == bytes
  {
    hide Safe, OldOrNew, ShowsBut, SameFinals, Stored, FinalsAgree;
    WriteSafe(d, g, bytes);
    SameFinalsShow(d, WriteTemp(d, g, bytes), g, Some(record));
    Chain(start, d, WriteTemp(d, g, bytes), g, Some(record));
  }

  lemma SyncStep(start: Disk, d: Disk, g: U64, record: seq<Byte>)
    requires Safe(d) && Temp(g) in d.current && OldOrNew(start, d, g, Some(record))
    ensures var e := SyncTemp(d, g);
      && Safe(e) && OldOrNew(start, e, g, Some(record))
      && e.current == d.current && e.content == d.content && e.current[Temp(g)] in e.synced
  {
    hide Safe, OldOrNew, ShowsBut, SameFinals, Stored, FinalsAgree;
    SyncSafe(d, g);
    SameFinalsShow(d, SyncTemp(d, g), g, Some(record));
    Chain(start, d, SyncTemp(d, g), g, Some(record));
  }

  lemma RenameSafe(d: Disk, g: U64)
    requires Safe(d) && Temp(g) in d.current && d.current[Temp(g)] in d.synced
    ensures Safe(RenameTemp(d, g))
  {
    var e := RenameTemp(d, g);
    assert OneNameEach(d.current);
    forall a, b | a in e.current && b in e.current && e.current[a] == e.current[b] ensures a == b {
      var a' := if a == Final(g) then Temp(g) else a;
      var b' := if b == Final(g) then Temp(g) else b;
      assert d.current[a'] == d.current[b'];
    }
    forall dir, a | dir in e.candidates && a in dir ensures dir[a] in e.content {
      if dir == e.current && a != Final(g) { assert a in d.current; }
    }
    forall dir, h, t | dir in e.candidates && Temp(t) in e.current && Final(h) in dir
      ensures e.current[Temp(t)] != dir[Final(h)]
    {
      if dir == e.current && h == g { assert d.current[Temp(t)] != d.current[Temp(g)]; }
    }
  }

  lemma RenameShows(d: Disk, g: U64)
    requires Safe(d) && Temp(g) in d.current
    ensures OldOrNew(d, RenameTemp(d, g), g, Some(d.content[d.current[Temp(g)]]))
  {
    var e := RenameTemp(d, g);
    var record := Some(d.content[d.current[Temp(g)]]);
    assert ShowsBut(d, d.current, e, e.current, g, record);
    ShowSelves(d, e, g, record);
  }

  /** Versions that were there before still show what they showed. */
  lemma ShowSelves(d: Disk, e: Disk, g: U64, extra: Option<seq<Byte>>)
    requires Safe(d) && e.content == d.content && e.candidates == d.candidates + {e.current}
    requires ShowsBut(d, d.current, e, e.current, g, extra)
    ensures OldOrNew(d, e, g, extra)
  {
    forall dir | dir in d.candidates ensures ShowsBut(d, dir, e, dir, g, extra) {}
  }

  lemma UnlinkSafe(d: Disk, g: U64)
    requires Safe(d)
    ensures Safe(Unlink(d, g))
  {
    assert OneNameEach(d.current);
    assert OneNameEach(Unlink(d, g).current);
  }

  lemma UnlinkShows(d: Disk, g: U64)
    requires Safe(d)
    ensures OldOrNew(d, Unlink(d, g), g, None)
  {
    assert ShowsBut(d, d.current, Unlink(d, g), d.current - {Final(g)}, g, None);
    ShowSelves(d, Unlink(d, g), g, None);
  }

  lemma SyncDirSafe(d: Disk)
    requires Safe(d)
    ensures Safe(SyncDir(d))
  {
  }

  /** One effect after another. */
  lemma Chain(d: Disk, e: Disk, f: Disk, g: U64, extra: Option<seq<Byte>>)
    requires OldOrNew(d, e, g, extra) && OldOrNew(e, f, g, extra)
    ensures OldOrNew(d, f, g, extra)
  {
    forall dir | dir in f.candidates ensures ShownBefore(d, f, dir, g, extra) {
      var mid :| mid in e.candidates && ShowsBut(e, mid, f, dir, g, extra);
      var prior :| prior in d.candidates && ShowsBut(d, prior, e, mid, g, extra);
      assert ShowsBut(d, prior, f, dir, g, extra);
    }
  }

  lemma FewerVersions(d: Disk, e: Disk, g: U64, extra: Option<seq<Byte>>)
    requires OldOrNew(d, e, g, extra) && e.current in e.candidates
    ensures OldOrNew(d, SyncDir(e), g, extra)
  {
    var prior :| prior in d.candidates && ShowsBut(d, prior, e, e.current, g, extra);
    assert ShowsBut(d, prior, SyncDir(e), e.current, g, extra);
  }

  /** A crash brings back, for all groups together, what one version shows, and leaves a disk safe to go on with. */
  lemma CrashShows(d: Disk, e: Disk)
    requires Safe(d) && CrashesTo(d, e)
    ensures Safe(e) && e.current in d.candidates
    ensures forall g :: Stored(e, e.current, g) == Stored(d, e.current, g)
  {
    assert OneNameEach(e.current);
  }

  // ----- What a start loads --------------------------------------------------------------------

  function Groups(names: set<Name>): set<U64> { set n | n in names && n.Final? :: n.g }

  /** What is read from one file, whose length is checked first. */
  function Read(crc: Checksum, maxAddress: nat, bytes: seq<Byte>): Result<Intent, StoreError> {
    if !(FIXED_SIZE + CHECKSUM_SIZE <= |bytes| <= FIXED_SIZE + maxAddress + CHECKSUM_SIZE)
    then Err(MigrationIntentCorrupt)
    else Decoded(crc, bytes, maxAddress)
  }

  function Opens(crc: Checksum, maxAddress: nat, d: Disk, dir: Dir, g: U64): Result<Intent, StoreError> {
    match Stored(d, dir, g)
    case Some(bytes) => Read(crc, maxAddress, bytes)
    case None => Err(MigrationIntentIo)
  }

  /** What a start makes of the file named after group `g`: it must hold an intent of that group. */
  function Loads(crc: Checksum, maxAddress: nat, d: Disk, dir: Dir, g: U64): (r: Result<Intent, StoreError>)
    ensures r.Ok? ==> r.value.groupId == g
  {
    match Opens(crc, maxAddress, d, dir, g)
    case Ok(i) => if i.groupId == g then Ok(i) else Err(MigrationIntentCorrupt)
    case Err(e) => Err(e)
  }

  /** The intents a directory version holds. */
  function Intents(crc: Checksum, maxAddress: nat, d: Disk, dir: Dir): map<U64, Intent> {
    map g | g in Groups(dir.Keys) && Loads(crc, maxAddress, d, dir, g).Ok? :: Loads(crc, maxAddress, d, dir, g).value
  }

  /** No version holds anything but whole records of their own groups. */
  ghost predicate Whole(crc: Checksum, maxAddress: nat, d: Disk) {
    forall dir, g :: dir in d.candidates && Stored(d, dir, g).Some? ==> Loads(crc, maxAddress, d, dir, g).Ok?
  }

  /** No version has a record of the group any more. */
  ghost predicate Gone(d: Disk, g: U64) {
    forall dir :: dir in d.candidates ==> Stored(d, dir, g) == None
  }

  ghost predicate RecordOf(crc: Checksum, maxAddress: nat, g: U64, bytes: seq<Byte>) {
    Read(crc, maxAddress, bytes).Ok? && Read(crc, maxAddress, bytes).value.groupId == g
  }

  /** The intents of a map, ascending by group. */
  ghost predicate Lists(s: seq<Intent>, m: map<U64, Intent>) {
    && (forall i, j :: 0 <= i < j < |s| ==> s[i].groupId < s[j].groupId)
    && (forall x :: x in s ==> x.groupId in m && m[x.groupId] == x)
    && (forall g :: g in m ==> m[g] in s)
  }

  lemma RecordLoads(crc: Checksum, maxAddress: nat, i: Intent)
    requires Encodable(i) && |i.address| <= maxAddress
    ensures RecordOf(crc, maxAddress, i.groupId, Record(crc, i)) && Read(crc, maxAddress, Record(crc, i)) == Ok(i)
  {
    hide Payload, Decoded, Little;
    RecordBijection(crc, Record(crc, i), maxAddress, i);
  }

  /** A store that was never written to. */
  const NOTHING_STORED := Disk(map[], {map[]}, map[], {})

  lemma NothingStored(crc: Checksum, maxAddress: nat)
    ensures Safe(NOTHING_STORED) && Whole(crc, maxAddress, NOTHING_STORED)
    ensures Intents(crc, maxAddress, NOTHING_STORED, NOTHING_STORED.current) == map[]
  {
  }

  /** Whatever a put or a removal leaves behind, and wherever it stops, the records are whole. */
  lemma WholeKept(crc: Checksum, maxAddress: nat, d: Disk, e: Disk, g: U64, extra: Option<seq<Byte>>)
    requires Whole(crc, maxAddress, d) && OldOrNew(d, e, g, extra)
    requires extra.Some? ==> RecordOf(crc, maxAddress, g, extra.value)
    ensures Whole(crc, maxAddress, e)
  {
    hide Read, Stored;
    forall dir, h | dir in e.candidates && Stored(e, dir, h).Some? ensures Loads(crc, maxAddress, e, dir, h).Ok? {
      assert ShownBefore(d, e, dir, g, extra);
      var prior :| prior in d.candidates && ShowsBut(d, prior, e, dir, g, extra);
      assert Stored(d, prior, h).Some? ==> Loads(crc, maxAddress, d, prior, h).Ok?;
    }
  }

  lemma PutKeepsWhole(crc: Checksum, maxAddress: nat, d: Disk, e: Disk, i: Intent)
    requires Encodable(i) && |i.address| <= maxAddress && OldOrNew(d, e, i.groupId, Some(Record(crc, i)))
    ensures Whole(crc, maxAddress, d) ==> Whole(crc, maxAddress, e)
  {
    hide Record, OldOrNew, Whole, Read, Encodable;
    RecordLoads(crc, maxAddress, i);
    if Whole(crc, maxAddress, d) { WholeKept(crc, maxAddress, d, e, i.groupId, Some(Record(crc, i))); }
  }

  lemma RemoveKeepsWhole(crc: Checksum, maxAddress: nat, d: Disk, e: Disk, g: U64)
    requires OldOrNew(d, e, g, None)
    ensures Whole(crc, maxAddress, d) ==> Whole(crc, maxAddress, e)
  {
    if Whole(crc, maxAddress, d) { WholeKept(crc, maxAddress, d, e, g, None); }
  }

  /** A crash loses no intent of the version it brings back, and leaves the records whole. */
  lemma CrashKeepsIntents(crc: Checksum, maxAddress: nat, d: Disk, e: Disk)
    requires Safe(d) && CrashesTo(d, e)
    ensures Whole(crc, maxAddress, d) ==> Whole(crc, maxAddress, e)
    ensures e.current in d.candidates
    ensures Intents(crc, maxAddress, e, e.current) == Intents(crc, maxAddress, d, e.current)
  {
    hide Read, Stored, Safe;
    CrashShows(d, e);
  }

  /** With whole records every final file is an intent. */
  lemma WholeIntents(crc: Checksum, maxAddress: nat, d: Disk, dir: Dir)
    requires Safe(d) && Whole(crc, maxAddress, d) && dir in d.candidates
    ensures Intents(crc, maxAddress, d, dir).Keys == Groups(dir.Keys)
  {
    forall g | g in Groups(dir.Keys) ensures Loads(crc, maxAddress, d, dir, g).Ok? {
      assert Final(g) in dir && Stored(d, dir, g).Some?;
    }
  }

  /** A version that shows for `g` alone something else holds the same intents but for `g`'s. */
  lemma IntentsBut(
      crc: Checksum, maxAddress: nat, d: Disk, prior: Dir, e: Disk, dir: Dir, g: U64, extra: Option<seq<Byte>>)
    requires ShowsBut(d, prior, e, dir, g, extra)
    requires extra.Some? ==> RecordOf(crc, maxAddress, g, extra.value)
    ensures var was := Intents(crc, maxAddress, d, prior);
      var is_ := Intents(crc, maxAddress, e, dir);
      || (is_ == was && Stored(e, dir, g) == Stored(d, prior, g))
      || is_ == if extra.Some? then was[g := Read(crc, maxAddress, extra.value).value] else was - {g}
  {
    hide Read, Intents, Loads, Stored;
    var was, is_ := Intents(crc, maxAddress, d, prior), Intents(crc, maxAddress, e, dir);
    forall h ensures h != g ==> (h in is_ <==> h in was) && (h in was ==> is_[h] == was[h]) {
      IntentAt(crc, maxAddress, d, prior, h);
      IntentAt(crc, maxAddress, e, dir, h);
      if h != g { SameLoads(crc, maxAddress, d, prior, e, dir, h); }
    }
    IntentAt(crc, maxAddress, d, prior, g);
    IntentAt(crc, maxAddress, e, dir, g);
    if Stored(e, dir, g) == Stored(d, prior, g) {
      SameLoads(crc, maxAddress, d, prior, e, dir, g);
      assert is_ == was;
    } else {
      LoadsOf(crc, maxAddress, e, dir, g, extra);
    }
  }

  lemma IntentAt(crc: Checksum, maxAddress: nat, d: Disk, dir: Dir, g: U64)
    ensures g in Intents(crc, maxAddress, d, dir) <==> Loads(crc, maxAddress, d, dir, g).Ok?
    ensures g in Intents(crc, maxAddress, d, dir) ==>
      Intents(crc, maxAddress, d, dir)[g] == Loads(crc, maxAddress, d, dir, g).value
  {
    hide Read;
    if Loads(crc, maxAddress, d, dir, g).Ok? { assert Final(g) in dir.Keys; }
  }

  lemma SameLoads(crc: Checksum, maxAddress: nat, d: Disk, prior: Dir, e: Disk, dir: Dir, g: U64)
    requires Stored(e, dir, g) == Stored(d, prior, g)
    ensures Loads(crc, maxAddress, e, dir, g) == Loads(crc, maxAddress, d, prior, g)
  {
    hide Read, Stored;
  }

  lemma LoadsOf(crc: Checksum, maxAddress: nat, d: Disk, dir: Dir, g: U64, shown: Option<seq<Byte>>)
    requires Stored(d, dir, g) == shown && (shown.Some? ==> RecordOf(crc, maxAddress, g, shown.value))
    ensures Loads(crc, maxAddress, d, dir, g)
      == if shown.Some? then Ok(Read(crc, maxAddress, shown.value).value) else Err(MigrationIntentIo)
  {
    hide Read, Stored;
  }

  /** What a crash during a put brings back: all the intents of one version, or those with the new one put in. */
  lemma PutRecovers(crc: Checksum, maxAddress: nat, d: Disk, e: Disk, after: Disk, i: Intent) returns (prior: Dir)
    requires Encodable(i) && |i.address| <= maxAddress
    requires Safe(e) && OldOrNew(d, e, i.groupId, Some(Record(crc, i))) && CrashesTo(e, after)
    ensures prior in d.candidates
    ensures var was := Intents(crc, maxAddress, d, prior);
      Intents(crc, maxAddress, after, after.current) in {was, was[i.groupId := i]}
  {
    hide Safe, CrashesTo, Record, Intents, ShowsBut, Read, Stored;
    CrashKeepsIntents(crc, maxAddress, e, after);
    assert ShownBefore(d, e, after.current, i.groupId, Some(Record(crc, i)));
    prior :| prior in d.candidates && ShowsBut(d, prior, e, after.current, i.groupId, Some(Record(crc, i)));
    RecordLoads(crc, maxAddress, i);
    IntentsBut(crc, maxAddress, d, prior, e, after.current, i.groupId, Some(Record(crc, i)));
  }

  /** And during a removal: all of them, or all but the removed one. */
  lemma RemoveRecovers(crc: Checksum, maxAddress: nat, d: Disk, e: Disk, after: Disk, g: U64) returns (prior: Dir)
    requires Safe(e) && OldOrNew(d, e, g, None) && CrashesTo(e, after)
    ensures prior in d.candidates
    ensures var was := Intents(crc, maxAddress, d, prior);
      Intents(crc, maxAddress, after, after.current) in {was, was - {g}}
  {
    hide Safe, CrashesTo, Intents, ShowsBut, Read, Stored;
    CrashKeepsIntents(crc, maxAddress, e, after);
    assert ShownBefore(d, e, after.current, g, None);
    prior :| prior in d.candidates && ShowsBut(d, prior, e, after.current, g, None);
    IntentsBut(crc, maxAddress, d, prior, e, after.current, g, None);
  }

  /**
   * Removing twice is not removing: after a removal cut short the file is no longer found, so the next one succeeds
   * without syncing the directory, and a crash may still bring the record back.
   */
  lemma RemovedMayReturn(d: Disk, g: U64)
    requires Safe(d) && Stored(d, d.current, g).Some?
    ensures var e := Unlink(d, g);
      && Safe(e) && Final(g) !in e.current
      && exists after :: CrashesTo(e, after) && Stored(after, after.current, g) == Stored(d, d.current, g)
  {
    UnlinkSafe(d, g);
    var after := Disk(d.current, {d.current}, d.content, d.synced);
    assert CrashesTo(Unlink(d, g), after);
  }

  // ----- Puts and removes as they run ----------------------------------------------------------

  /** A system call that fails may or may not have done its work. */
  datatype Effect = Done | Failed | FailedAfterEffect

  /** What goes wrong during one put; a failed write leaves some bytes or other. */
  datatype Faults = Faults(
    open: Effect, write: Option<seq<Byte>>, sync: Effect, close: bool, rename: Effect, syncDir: Effect)

  class Store {
    const crc: Checksum
    const maxAddress: nat
    var disk: Disk

    constructor (crc: Checksum, maxAddress: nat, disk: Disk)
      requires Safe(disk)
      ensures this.crc == crc && this.maxAddress == maxAddress && this.disk == disk
    {
      this.crc, this.maxAddress, this.disk := crc, maxAddress, disk;
    }

    /**
     * Wherever it stops, and whichever version a crash then brings back, the group has its old record or the
     * whole new one; after success it has the new one for certain.
     */
    method Put(i: Intent, unused: nat, f: Faults) returns (r: Option<StoreError>)
      requires Safe(disk) && unused !in disk.content
      modifies this
      ensures Safe(disk) && OldOrNew(old(disk), disk, i.groupId, Some(Record(crc, i)))
      ensures |i.address| > maxAddress ==> r == Some(GroupOperationBackpressure)
      ensures !Encodable(i) && |i.address| <= maxAddress ==> r == Some(MigrationIntentCorrupt)
      ensures !Encodable(i) || |i.address| > maxAddress ==> disk == old(disk)
      ensures Whole(crc, maxAddress, old(disk)) ==> Whole(crc, maxAddress, disk)
      ensures r == None ==> forall dir :: dir in disk.candidates ==>
        Stored(disk, dir, i.groupId) == Some(Record(crc, i))
    {
      hide Record, Safe, OldOrNew, Encodable, Whole;
      ghost var start := disk;
      Unchanged(disk, i.groupId, Some(Record(crc, i)));
      if |i.address| > maxAddress { return Some(GroupOperationBackpressure); }
      var encoded := EncodeRecord(crc, i);
      if encoded.Err? { return Some(encoded.error); }
      var written := WriteSynced(i.groupId, encoded.value, unused, f, start);
      if !written {
        PutKeepsWhole(crc, maxAddress, start, disk, i);
        return Some(MigrationIntentIo);
      }
      r := Publish(i.groupId, f, start, encoded.value);
      PutKeepsWhole(crc, maxAddress, start, disk, i);
    }

    /** The record, whole and synced, under its temporary name. */
    method WriteSynced(g: U64, record: seq<Byte>, unused: nat, f: Faults, ghost start: Disk) returns (ok: bool)
      requires Safe(disk) && unused !in disk.content
      requires OldOrNew(start, disk, g, Some(record))
      modifies this
      ensures Safe(disk) && OldOrNew(start, disk, g, Some(record))
      ensures ok ==> Temp(g) in disk.current && disk.current[Temp(g)] in disk.synced
      ensures ok ==> disk.current[Temp(g)] in disk.content && disk.content[disk.current[Temp(g)]] == record
    {
      hide Safe, OldOrNew, OpenTemp, WriteTemp, SyncTemp;
      if f.open == Failed { return false; }
      OpenSafe(disk, g, unused, Some(record));
      Chain(start, disk, OpenTemp(disk, g, unused), g, Some(record));
      disk := OpenTemp(disk, g, unused);
      if f.open != Done { return false; }
      var written := if f.write.Some? then f.write.value else record;
      WriteStep(start, disk, g, written, record);
      disk := WriteTemp(disk, g, written);
      if f.write.Some? || f.sync == Failed { return false; }
      SyncStep(start, disk, g, record);
      disk := SyncTemp(disk, g);
      return f.sync == Done && !f.close;
    }

    /** The renaming, and making it last. */
    method Publish(g: U64, f: Faults, ghost start: Disk, ghost record: seq<Byte>) returns (r: Option<StoreError>)
      requires Safe(disk) && Temp(g) in disk.current && disk.current[Temp(g)] in disk.synced
      requires disk.current[Temp(g)] in disk.content && disk.content[disk.current[Temp(g)]] == record
      requires OldOrNew(start, disk, g, Some(record))
      modifies this
      ensures Safe(disk) && OldOrNew(start, disk, g, Some(record))
      ensures r == None || r == Some(MigrationIntentIo)
      ensures r == None ==> forall dir :: dir in disk.candidates ==> Stored(disk, dir, g) == Some(record)
    {
      hide Safe, OldOrNew;
      if f.rename == Failed { return Some(MigrationIntentIo); }
      RenameSafe(disk, g);
      RenameShows(disk, g);
      Chain(start, disk, RenameTemp(disk, g), g, Some(record));
      disk := RenameTemp(disk, g);
      if f.rename != Done { return Some(MigrationIntentIo); }
      if f.syncDir == Failed { return Some(MigrationIntentIo); }
      SyncDirSafe(disk);
      FewerVersions(start, disk, g, Some(record));
      disk := SyncDir(disk);
      if f.syncDir != Done { return Some(MigrationIntentIo); }
      return None;
    }

    /**
     * After success the current version has no record of the group. Older versions lost theirs only if there was
     * one to remove: finding none succeeds without touching the disk.
     */
    method Remove(g: U64, unlink: Effect, syncDir: Effect) returns (r: Option<StoreError>)
      requires Safe(disk)
      modifies this
      ensures Safe(disk) && OldOrNew(old(disk), disk, g, None)
      ensures r == None || r == Some(MigrationIntentIo)
      ensures r == None ==> Stored(disk, disk.current, g) == None
      ensures r == None ==> (Gone(disk, g) <==> Final(g) in old(disk).current || Gone(old(disk), g))
      ensures Final(g) !in old(disk).current ==> disk == old(disk) && (r == None <==> unlink == Done)
      ensures Whole(crc, maxAddress, old(disk)) ==> Whole(crc, maxAddress, disk)
    {
      hide Safe, OldOrNew, Whole;
      Unchanged(disk, g, None);
      if unlink == Failed { return Some(MigrationIntentIo); }
      if Final(g) !in disk.current { return if unlink == Done then None else Some(MigrationIntentIo); }
      UnlinkSafe(disk, g);
      UnlinkShows(disk, g);
      disk := Unlink(disk, g);
      RemoveKeepsWhole(crc, maxAddress, old(disk), disk, g);
      if unlink != Done || syncDir == Failed { return Some(MigrationIntentIo); }
      SyncDirSafe(disk);
      FewerVersions(old(disk), disk, g, None);
      disk := SyncDir(disk);
      RemoveKeepsWhole(crc, maxAddress, old(disk), disk, g);
      return if syncDir == Done then None else Some(MigrationIntentIo);
    }

    /** One stored intent, its length checked before it is read. */
    method LoadOne(g: U64, fails: bool) returns (r: Result<Intent, StoreError>)
      requires Safe(disk) && Final(g) in disk.current
      ensures fails ==> r == Err(MigrationIntentIo)
      ensures !fails ==> r == Opens(crc, maxAddress, disk, disk.current, g)
    {
      hide Decoded;
      if fails { return Err(MigrationIntentIo); }
      var bytes := disk.content[disk.current[Final(g)]];
      if |bytes| < FIXED_SIZE + CHECKSUM_SIZE || |bytes| > FIXED_SIZE + maxAddress + CHECKSUM_SIZE {
        return Err(MigrationIntentCorrupt);
      }
      r := DecodeRecord(crc, bytes, maxAddress);
    }

    /** The stored intents in the order the directory lists them. */
    method Gather(names: seq<Name>, unreadable: set<U64>, maxIntents: nat) returns (r: Result<seq<Intent>, StoreError>)
      requires Safe(disk) && Distinct(names) && SetOf(names) == disk.current.Keys
      ensures r.Ok? ==> Gathered(crc, maxAddress, disk, r.value, Groups(disk.current.Keys), unreadable)
      ensures r.Ok? ==> |Groups(disk.current.Keys)| <= maxIntents
      ensures r == Err(MigrationIntentIo) ==> unreadable != {}
      ensures r == Err(GroupOperationBackpressure) ==> |Groups(disk.current.Keys)| > maxIntents
      ensures r.Err? && r.error in {MigrationIntentCorrupt, UnsupportedVersion} ==> !Whole(crc, maxAddress, disk)
    {
      hide Gathered, Groups, Opens, Whole, Safe, Distinct, SetOf, Readable;
      var loaded: seq<Intent> := [];
      ghost var seen: set<U64> := {};
      NoneYet(crc, maxAddress, disk, names, unreadable);
      for k := 0 to |names|
        invariant |loaded| == |seen| <= maxIntents && seen == Groups(SetOf(names[..k]))
        invariant Gathered(crc, maxAddress, disk, loaded, seen, unreadable)
      {
        GroupsNext(names, k, disk.current);
        if names[k].Final? {
          var g := names[k].g;
          if |loaded| >= maxIntents { return Err(GroupOperationBackpressure); }
          var one := LoadOne(g, g in unreadable);
          FailureShows(crc, maxAddress, disk, g, unreadable);
          if one.Err? { return Err(one.error); }
          if one.value.groupId != g { return Err(MigrationIntentCorrupt); }
          GatheredNext(crc, maxAddress, disk, loaded, seen, unreadable, one.value);
          loaded := loaded + [one.value];
          seen := seen + {g};
        }
      }
      assert names[..|names|] == names;
      return Ok(loaded);
    }

    /**
     * What a start recovers: every intent in the current directory, ascending by group, or the first thing that goes
     * wrong. With whole records that can only be the file system or the limit.
     */
    method LoadAll(listing: Option<seq<Name>>, unreadable: set<U64>, maxIntents: nat)
      returns (r: Result<seq<Intent>, StoreError>)
      requires Safe(disk)
      requires listing.Some? ==> Distinct(listing.value) && SetOf(listing.value) == disk.current.Keys
      ensures r.Ok? ==> Lists(r.value, Intents(crc, maxAddress, disk, disk.current))
      ensures r.Ok? ==> listing.Some? && |Groups(disk.current.Keys)| <= maxIntents
      ensures r.Ok? ==> Readable(crc, maxAddress, disk, Groups(disk.current.Keys), unreadable)
      ensures r == Err(MigrationIntentIo) ==> listing == None || unreadable != {}
      ensures r == Err(GroupOperationBackpressure) ==> |Groups(disk.current.Keys)| > maxIntents
      ensures r.Err? && r.error in {MigrationIntentCorrupt, UnsupportedVersion} ==> !Whole(crc, maxAddress, disk)
    {
      hide Gathered, Groups, Opens, Loads, Whole, Safe, Distinct, SetOf, Lists, Readable, Intents;
      if listing == None { return Err(MigrationIntentIo); }
      var gathered := Gather(listing.value, unreadable, maxIntents);
      if gathered.Err? { return gathered; }
      var loaded := gathered.value;
      var items := new Intent[|loaded|](i requires 0 <= i < |loaded| => loaded[i]);
      assert items[..] == loaded;
      Sort(items, ByGroup);
      GatheredAll(crc, maxAddress, disk, loaded, items[..], unreadable);
      return Ok(items[..]);
    }
  }

  /** Sort key that puts the lowest group first. */
  function ByGroup(i: Intent): int { i.groupId }

  ghost predicate Readable(crc: Checksum, maxAddress: nat, d: Disk, groups: set<U64>, unreadable: set<U64>) {
    forall g :: g in groups ==> g !in unreadable && Loads(crc, maxAddress, d, d.current, g).Ok?
  }

  /** `loaded` are the intents of the groups seen so far, in some order. */
  ghost predicate Gathered(
    crc: Checksum, maxAddress: nat, d: Disk, loaded: seq<Intent>, seen: set<U64>, unreadable: set<U64>)
  {
    && |loaded| == |seen| && Readable(crc, maxAddress, d, seen, unreadable)
    && (forall x :: x in loaded ==> x.groupId in seen && Loads(crc, maxAddress, d, d.current, x.groupId) == Ok(x))
    && (forall g :: g in seen ==> Loads(crc, maxAddress, d, d.current, g).value in loaded)
  }

  lemma NoneYet(crc: Checksum, maxAddress: nat, d: Disk, names: seq<Name>, unreadable: set<U64>)
    ensures Groups(SetOf(names[..0])) == {} && Gathered(crc, maxAddress, d, [], {}, unreadable)
  {
  }

  lemma GroupsNext(names: seq<Name>, k: nat, dir: Dir)
    requires k < |names| && Distinct(names) && SetOf(names) == dir.Keys
    ensures var before := Groups(SetOf(names[..k]));
      var after := Groups(SetOf(names[..k + 1]));
      if names[k].Final? then
        && names[k] in dir && names[k].g !in before && after == before + {names[k].g}
        && |after| == |before| + 1 && |after| <= |Groups(dir.Keys)|
      else after == before
  {
    SetOfNext(names, k);
    if names[k].Final? {
      var before, after := Groups(SetOf(names[..k])), Groups(SetOf(names[..k + 1]));
      assert names[k] in SetOf(names) && names[k] !in names[..k];
      SubsetCardinality(after, Groups(dir.Keys));
    }
  }

  lemma FailureShows(crc: Checksum, maxAddress: nat, d: Disk, g: U64, unreadable: set<U64>)
    requires Safe(d) && Final(g) in d.current
    ensures Whole(crc, maxAddress, d) ==> Loads(crc, maxAddress, d, d.current, g).Ok?
    ensures Opens(crc, maxAddress, d, d.current, g).Err? ==>
      Opens(crc, maxAddress, d, d.current, g).error in {MigrationIntentCorrupt, UnsupportedVersion}
  {
    assert Stored(d, d.current, g).Some?;
  }

  lemma GatheredNext(crc: Checksum, maxAddress: nat, d: Disk, loaded: seq<Intent>, seen: set<U64>,
      unreadable: set<U64>, x: Intent)
    requires Gathered(crc, maxAddress, d, loaded, seen, unreadable)
    requires x.groupId !in seen && x.groupId !in unreadable
    requires Loads(crc, maxAddress, d, d.current, x.groupId) == Ok(x)
    ensures Gathered(crc, maxAddress, d, loaded + [x], seen + {x.groupId}, unreadable)
  {
    hide Loads;
    forall y | y in loaded + [x] ensures y in loaded || y == x {}
    forall g | g in seen ensures Loads(crc, maxAddress, d, d.current, g).value in loaded + [x] {}
    assert (loaded + [x])[|loaded|] == x;
  }

  lemma GatheredAll(
      crc: Checksum, maxAddress: nat, d: Disk, loaded: seq<Intent>, sorted: seq<Intent>, unreadable: set<U64>)
    requires Safe(d) && Gathered(crc, maxAddress, d, loaded, Groups(d.current.Keys), unreadable)
    requires multiset(sorted) == multiset(loaded) && SortedBy(sorted, ByGroup)
    ensures Lists(sorted, Intents(crc, maxAddress, d, d.current))
    ensures Readable(crc, maxAddress, d, Groups(d.current.Keys), unreadable)
  {
    hide Loads, Safe, Groups, SetOf, Distinct;
    PermutationElements(sorted, loaded);
    SameElements(sorted, loaded);
    GatheredDistinct(crc, maxAddress, d, sorted, Groups(d.current.Keys), unreadable);
    forall i, j | 0 <= i < j < |sorted| ensures sorted[i].groupId < sorted[j].groupId {
      assert ByGroup(sorted[i]) <= ByGroup(sorted[j]);
    }
  }

  lemma SameElements<T>(s: seq<T>, t: seq<T>)
    requires SetOf(s) == SetOf(t)
    ensures forall x :: x in s <==> x in t
  {
    forall x ensures x in s <==> x in t { assert x in SetOf(s) <==> x in SetOf(t); }
  }

  lemma GatheredDistinct(
      crc: Checksum, maxAddress: nat, d: Disk, loaded: seq<Intent>, seen: set<U64>, unreadable: set<U64>)
    requires Gathered(crc, maxAddress, d, loaded, seen, unreadable)
    ensures forall i, j :: 0 <= i < j < |loaded| ==> loaded[i].groupId != loaded[j].groupId
  {
    hide Loads;
    var ids := seq(|loaded|, i requires 0 <= i < |loaded| => loaded[i].groupId);
    forall g ensures g in ids <==> g in seen {
      if g in seen {
        var i :| 0 <= i < |loaded| && loaded[i] == Loads(crc, maxAddress, d, d.current, g).value;
        assert ids[i] == g;
      }
    }
    assert SetOf(ids) == seen;
    SameCardinalityDistinct(ids);
    forall i, j | 0 <= i < j < |loaded| ensures loaded[i].groupId != loaded[j].groupId {
      assert ids[i] != ids[j];
    }
  }

  lemma Unchanged(d: Disk, g: U64, extra: Option<seq<Byte>>)
    ensures OldOrNew(d, d, g, extra)
  {
    forall dir | dir in d.candidates ensures ShowsBut(d, dir, d, dir, g, extra) {}
  }

  /** With only one record possible before a put, a crash during it recovers that record or the new one, both whole. */
  lemma PutIsAtomic(d: Disk, e: Disk, after: Disk, g: U64, was: Option<seq<Byte>>, record: seq<Byte>)
    requires forall dir :: dir in d.candidates ==> Stored(d, dir, g) == was
    requires Safe(e) && OldOrNew(d, e, g, Some(record)) && CrashesTo(e, after)
    ensures Stored(after, after.current, g) in {was, Some(record)}
  {
    hide Safe, CrashesTo;
    CrashShows(e, after);
    var prior :| prior in d.candidates && ShowsBut(d, prior, e, after.current, g, Some(record));
    assert Stored(d, prior, g) == was;
  }
}

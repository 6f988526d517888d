/** The binary codec for messages: fixed-width little-endian fields, length-prefixed strings, frames. */
module Codec {
  import opened Common
  import opened Bytes
  import ConfRestore

  type ConfState = ConfRestore.ConfState

  type U32 = n: int | 0 <= n < 0x1_0000_0000

  type I64 = n: int | -0x8000_0000_0000_0000 <= n < 0x8000_0000_0000_0000

  const CODEC_MAGIC: nat := 0x52415046
  const CODEC_VERSION: nat := 1
  const ENVELOPE_MAGIC: nat := 0x52414d45
  const ENVELOPE_VERSION: nat := 1
  const ENVELOPE_HEADER_SIZE: nat := 20
  const ENTRY_MIN_SIZE: nat := 29

  datatype EntryType = Normal | ConfChange | ConfChangeV2

  datatype MessageType =
    | Hup | Beat | ProposeMsg | Append | AppendResponse | RequestVote | RequestVoteResponse | SnapshotMsg
    | Heartbeat | HeartbeatResponse | UnreachablePeer | SnapStatus | CheckQuorum | TransferLeader
    | TimeoutNow | ReadIndex | ReadIndexResp | RequestPreVote | RequestPreVoteResponse

  const MESSAGE_TYPES: seq<MessageType> := [
    Hup, Beat, ProposeMsg, Append, AppendResponse, RequestVote, RequestVoteResponse, SnapshotMsg,
    Heartbeat, HeartbeatResponse, UnreachablePeer, SnapStatus, CheckQuorum, TransferLeader,
    TimeoutNow, ReadIndex, ReadIndexResp, RequestPreVote, RequestPreVoteResponse]

  const ENTRY_TYPES: seq<EntryType> := [Normal, ConfChange, ConfChangeV2]

  /** The byte of a type on the wire: its position in the list of types. */
  function TypeByte(t: MessageType): (b: Byte)
    ensures b < 19 && MESSAGE_TYPES[b] == t
  {
    match t
    case Hup => 0 case Beat => 1 case ProposeMsg => 2 case Append => 3 case AppendResponse => 4
    case RequestVote => 5 case RequestVoteResponse => 6 case SnapshotMsg => 7 case Heartbeat => 8
    case HeartbeatResponse => 9 case UnreachablePeer => 10 case SnapStatus => 11 case CheckQuorum => 12
    case TransferLeader => 13 case TimeoutNow => 14 case ReadIndex => 15 case ReadIndexResp => 16
    case RequestPreVote => 17 case RequestPreVoteResponse => 18
  }

  function EntryByte(t: EntryType): (b: Byte)
    ensures b < 3 && ENTRY_TYPES[b] == t
  {
    match t case Normal => 0 case ConfChange => 1 case ConfChangeV2 => 2
  }

  datatype Entry = Entry(
    entryType: EntryType, term: U64, index: U64, checksum: U32, data: seq<Byte>, context: seq<Byte>)

  datatype Snapshot = Snapshot(index: U64, term: U64, confState: ConfState, membership: seq<Byte>, data: seq<Byte>)

  /** The eight 64-bit fields that follow the type byte, in wire order. */
  datatype Head = Head(
    to: U64, from: U64, term: U64, logTerm: U64, index: U64, commit: U64, commitTerm: U64, requestSnapshot: U64)

  datatype Message = Message(
    msgType: MessageType,
    head: Head,
    reject: bool,
    rejectHint: U64,
    priority: I64,
    context: seq<Byte>,
    entries: seq<Entry>,
    snapshot: Option<Snapshot>)

  datatype DecodeError =
    InvalidMagic | InvalidVersion | InvalidMessageType | InvalidEntryType | MessageTypeMismatch
    | TrailingData | TruncatedMessage | InvalidGroupId

  /** What reading a part of a message gives: its value and the bytes after it, or an error. */
  datatype Read<+T> = Done(value: T, rest: seq<Byte>) | Fail(error: DecodeError)

  /** With more bytes behind it, the same value is read and the extra bytes are left over. */
  function Extended<T>(r: Read<T>, more: seq<Byte>): Read<T> {
    match r
    case Done(v, rest) => Done(v, rest + more)
    case Fail(e) => Fail(e)
  }

  // ----- What fits on the wire -----------------------------------------------------------------

  predicate Short32<T>(s: seq<T>) { |s| < 0x1_0000_0000 }

  predicate FitsConf(c: ConfState) {
    Short32(c.voters) && Short32(c.learners) && Short32(c.votersOutgoing) && Short32(c.learnersNext)
  }

  predicate FitsEntry(e: Entry) { Short32(e.data) && Short32(e.context) }

  predicate FitsSnapshot(s: Snapshot) { FitsConf(s.confState) && Short32(s.membership) && Short32(s.data) }

  /** Every length fits 32 bits, as the encoder demands. */
  predicate Fits(m: Message) {
    && Short32(m.context) && Short32(m.entries)
    && (forall i :: 0 <= i < |m.entries| ==> FitsEntry(m.entries[i]))
    && (m.snapshot.Some? ==> FitsSnapshot(m.snapshot.value))
  }

  // ----- Printing ------------------------------------------------------------------------------

  function BoolByte(b: bool): Byte { if b then 1 else 0 }

  /** Two's complement in 64 bits. */
  function FromSigned(v: I64): U64 { if v < 0 then v + 0x1_0000_0000_0000_0000 else v }

  function ToSigned(v: U64): I64 { if v < 0x8000_0000_0000_0000 then v else v - 0x1_0000_0000_0000_0000 }

  function PrintHead(h: Head, rest: seq<Byte>): seq<Byte> {
    PrintU64s([h.to, h.from, h.term, h.logTerm, h.index, h.commit, h.commitTerm, h.requestSnapshot]) + rest
  }

  function PrintBlob(b: seq<Byte>, rest: seq<Byte>): seq<Byte> { PrintBytes(b) + rest }

  function PrintEntry(e: Entry, rest: seq<Byte>): seq<Byte> {
    [EntryByte(e.entryType)] + (Little(8, e.term) + (Little(8, e.index) + (Little(4, e.checksum)
      + PrintBlob(e.data, PrintBlob(e.context, rest)))))
  }

  function PrintEntries(es: seq<Entry>, rest: seq<Byte>): seq<Byte> {
    if es == [] then rest else PrintEntry(es[0], PrintEntries(es[1..], rest))
  }

  /** `auto` is the byte standing for the flag; the encoder writes 0 or 1. */
  function PrintConf(c: ConfState, auto: Byte, rest: seq<Byte>): seq<Byte> {
    PrintU64List(c.voters, PrintU64List(c.learners, PrintU64List(c.votersOutgoing,
      PrintU64List(c.learnersNext, [auto] + rest))))
  }

  function PrintSnapshot(s: Snapshot, auto: Byte, rest: seq<Byte>): seq<Byte> {
    Little(8, s.index) + (Little(8, s.term)
      + PrintConf(s.confState, auto, PrintBlob(s.membership, PrintBlob(s.data, rest))))
  }

  /** The three bytes that stand for booleans in a message. */
  datatype Flags = Flags(reject: Byte, hasSnapshot: Byte, autoLeave: Byte)

  function PrintTail(s: Option<Snapshot>, f: Flags, rest: seq<Byte>): seq<Byte> {
    [f.hasSnapshot] + if s.Some? then PrintSnapshot(s.value, f.autoLeave, rest) else rest
  }

  function PrintWith(m: Message, f: Flags, rest: seq<Byte>): seq<Byte>
    requires Fits(m)
  {
    [TypeByte(m.msgType)] + PrintHead(m.head, [f.reject] + (Little(8, m.rejectHint)
      + (Little(8, FromSigned(m.priority)) + PrintBlob(m.context,
        Little(4, |m.entries|) + PrintEntries(m.entries, PrintTail(m.snapshot, f, rest))))))
  }

  /** The flag bytes the encoder writes. */
  function PlainFlags(m: Message): Flags {
    Flags(BoolByte(m.reject), BoolByte(m.snapshot.Some?),
          BoolByte(m.snapshot.Some? && m.snapshot.value.confState.autoLeave))
  }

  function Encode(m: Message): seq<Byte>
    requires Fits(m)
  {
    PrintWith(m, PlainFlags(m), [])
  }

  // ----- Parsing -------------------------------------------------------------------------------

  function ReadByte(d: seq<Byte>): (r: Read<Byte>)
    ensures r.Fail? ==> r.error == TruncatedMessage
  {
    if d == [] then Fail(TruncatedMessage) else Done(d[0], d[1..])
  }

  function ReadU64(d: seq<Byte>): (r: Read<U64>)
    ensures r.Fail? ==> r.error == TruncatedMessage
  {
    match ParseU64(d) case Parsed(v, r) => Done(v, r) case Short => Fail(TruncatedMessage)
  }

  function ReadU32(d: seq<Byte>): (r: Read<U32>)
    ensures r.Fail? ==> r.error == TruncatedMessage
  {
    match ParseInt(4, d)
    case Parsed(v, r) =>
      LittleOfValue(d[..4]);
      Limits();
      Done(v, r)
    case Short => Fail(TruncatedMessage)
  }

  function ReadBlob(d: seq<Byte>): (r: Read<seq<Byte>>)
    ensures r.Fail? ==> r.error == TruncatedMessage
  {
    match ParseBytes(d) case Parsed(v, r) => Done(v, r) case Short => Fail(TruncatedMessage)
  }

  function ReadList(d: seq<Byte>): (r: Read<seq<U64>>)
    ensures r.Fail? ==> r.error == TruncatedMessage
  {
    match ParseU64List(d) case Parsed(v, r) => Done(v, r) case Short => Fail(TruncatedMessage)
  }

  function ReadHead(d: seq<Byte>): (r: Read<Head>)
    ensures r.Fail? ==> r.error == TruncatedMessage
  {
    match Take(64, d)
    case Short => Fail(TruncatedMessage)
    case Parsed(b, r) =>
      var v := SplitU64s(b);
      Done(Head(v[0], v[1], v[2], v[3], v[4], v[5], v[6], v[7]), r)
  }

  function ReadEntry(d: seq<Byte>): Read<Entry> {
    match ReadByte(d) case Fail(e) => Fail(e) case Done(t, d1) =>
    if t >= 3 then Fail(InvalidEntryType) else
    match ReadU64(d1) case Fail(e) => Fail(e) case Done(term, d2) =>
    match ReadU64(d2) case Fail(e) => Fail(e) case Done(index, d3) =>
    match ReadU32(d3) case Fail(e) => Fail(e) case Done(checksum, d4) =>
    match ReadBlob(d4) case Fail(e) => Fail(e) case Done(data, d5) =>
    match ReadBlob(d5) case Fail(e) => Fail(e) case Done(context, d6) =>
    Done(Entry(ENTRY_TYPES[t], term, index, checksum, data, context), d6)
  }

  function ReadEntries(n: nat, d: seq<Byte>): Read<seq<Entry>> {
    if n == 0 then Done([], d) else
    match ReadEntry(d) case Fail(e) => Fail(e) case Done(e, d1) =>
    match ReadEntries(n - 1, d1) case Fail(x) => Fail(x) case Done(es, d2) =>
    Done([e] + es, d2)
  }

  function ReadConf(d: seq<Byte>): (r: Read<ConfState>)
    ensures r.Fail? ==> r.error == TruncatedMessage
  {
    match ReadList(d) case Fail(e) => Fail(e) case Done(voters, d1) =>
    match ReadList(d1) case Fail(e) => Fail(e) case Done(learners, d2) =>
    match ReadList(d2) case Fail(e) => Fail(e) case Done(outgoing, d3) =>
    match ReadList(d3) case Fail(e) => Fail(e) case Done(next, d4) =>
    match ReadByte(d4) case Fail(e) => Fail(e) case Done(auto, d5) =>
    Done(ConfRestore.ConfState(voters, learners, outgoing, next, auto != 0), d5)
  }

  function ReadSnapshot(d: seq<Byte>): (r: Read<Snapshot>)
    ensures r.Fail? ==> r.error == TruncatedMessage
  {
    match ReadU64(d) case Fail(e) => Fail(e) case Done(index, d1) =>
    match ReadU64(d1) case Fail(e) => Fail(e) case Done(term, d2) =>
    match ReadConf(d2) case Fail(e) => Fail(e) case Done(conf, d3) =>
    match ReadBlob(d3) case Fail(e) => Fail(e) case Done(membership, d4) =>
    match ReadBlob(d4) case Fail(e) => Fail(e) case Done(data, d5) =>
    Done(Snapshot(index, term, conf, membership, data), d5)
  }

  function ReadTail(d: seq<Byte>): (r: Read<Option<Snapshot>>)
    ensures r.Fail? ==> r.error == TruncatedMessage
  {
    match ReadByte(d) case Fail(e) => Fail(e) case Done(has, d1) =>
    if has == 0 then Done(None, d1) else
    match ReadSnapshot(d1) case Fail(e) => Fail(e) case Done(s, d2) => Done(Some(s), d2)
  }

  /** The count guard refuses counts that the bytes at hand could not possibly hold. */
  predicate CountTooLarge(n: nat, remaining: nat) {
    remaining == 0 || n > (remaining - 1) / ENTRY_MIN_SIZE
  }

  function ReadCountedEntries(d: seq<Byte>): Read<seq<Entry>> {
    match ReadU32(d) case Fail(e) => Fail(e) case Done(n, d1) =>
    if CountTooLarge(n, |d1|) then Fail(TruncatedMessage) else ReadEntries(n, d1)
  }

  /** The fields between the head and the entries. */
  datatype Middle = Middle(reject: bool, rejectHint: U64, priority: I64, context: seq<Byte>)

  function ReadMiddle(d: seq<Byte>): (r: Read<Middle>)
    ensures r.Fail? ==> r.error == TruncatedMessage
  {
    match ReadByte(d) case Fail(e) => Fail(e) case Done(reject, d1) =>
    match ReadU64(d1) case Fail(e) => Fail(e) case Done(hint, d2) =>
    match ReadU64(d2) case Fail(e) => Fail(e) case Done(priority, d3) =>
    match ReadBlob(d3) case Fail(e) => Fail(e) case Done(context, d4) =>
    Done(Middle(reject != 0, hint, ToSigned(priority), context), d4)
  }

  function ReadMessage(d: seq<Byte>): Read<Message> {
    match ReadByte(d) case Fail(e) => Fail(e) case Done(t, d1) =>
    if t >= 19 then Fail(InvalidMessageType) else
    match ReadHead(d1) case Fail(e) => Fail(e) case Done(head, d2) =>
    match ReadMiddle(d2) case Fail(e) => Fail(e) case Done(mid, d3) =>
    match ReadCountedEntries(d3) case Fail(e) => Fail(e) case Done(entries, d4) =>
    match ReadTail(d4) case Fail(e) => Fail(e) case Done(snapshot, d5) =>
    Done(Message(MESSAGE_TYPES[t], head, mid.reject, mid.rejectHint, mid.priority, mid.context, entries, snapshot), d5)
  }

  /** A whole buffer must be one message. */
  function Decode(d: seq<Byte>): Result<Message, DecodeError> {
    match ReadMessage(d)
    case Fail(e) => Err(e)
    case Done(m, rest) => if rest == [] then Ok(m) else Err(TrailingData)
  }

  // ----- Printed parts are read back -----------------------------------------------------------

  lemma BytePrinted(b: Byte, rest: seq<Byte>)
    ensures ReadByte([b] + rest) == Done(b, rest)
  {
    assert ([b] + rest)[1..] == rest;
  }

  lemma U64Printed(v: U64, rest: seq<Byte>)
    ensures ReadU64(Little(8, v) + rest) == Done(v, rest)
  {
    Limits();
    ParseIntPrinted(8, v, rest);
  }

  lemma U32Printed(v: U32, rest: seq<Byte>)
    ensures ReadU32(Little(4, v) + rest) == Done(v, rest)
  {
    Limits();
    ParseIntPrinted(4, v, rest);
  }

  lemma BlobPrinted(b: seq<Byte>, rest: seq<Byte>)
    requires Short32(b)
    ensures ReadBlob(PrintBlob(b, rest)) == Done(b, rest)
  {
    Limits();
    ParseBytesPrinted(b, rest);
  }

  lemma ListPrinted(vs: seq<U64>, rest: seq<Byte>)
    requires Short32(vs)
    ensures ReadList(PrintU64List(vs, rest)) == Done(vs, rest)
  {
    Limits();
    ParseU64ListPrinted(vs, rest);
  }

  lemma HeadPrinted(h: Head, rest: seq<Byte>)
    ensures ReadHead(PrintHead(h, rest)) == Done(h, rest)
  {
    var vs := [h.to, h.from, h.term, h.logTerm, h.index, h.commit, h.commitTerm, h.requestSnapshot];
    SplitPrinted(vs);
    var b := PrintU64s(vs);
    assert (b + rest)[..64] == b && (b + rest)[64..] == rest;
  }

  lemma EntryPrinted(e: Entry, rest: seq<Byte>)
    requires FitsEntry(e)
    ensures ReadEntry(PrintEntry(e, rest)) == Done(e, rest)
  {
    hide ReadBlob, ReadU64, ReadU32, PrintBlob;
    var r4 := PrintBlob(e.data, PrintBlob(e.context, rest));
    var r3 := Little(4, e.checksum) + r4;
    var r2 := Little(8, e.index) + r3;
    BytePrinted(EntryByte(e.entryType), Little(8, e.term) + r2);
    U64Printed(e.term, r2);
    U64Printed(e.index, r3);
    U32Printed(e.checksum, r4);
    BlobPrinted(e.data, PrintBlob(e.context, rest));
    BlobPrinted(e.context, rest);
  }

  lemma {:induction false} EntriesPrinted(es: seq<Entry>, rest: seq<Byte>)
    requires forall i :: 0 <= i < |es| ==> FitsEntry(es[i])
    ensures ReadEntries(|es|, PrintEntries(es, rest)) == Done(es, rest)
  {
    hide ReadEntry, PrintEntry;
    if es != [] {
      EntryPrinted(es[0], PrintEntries(es[1..], rest));
      EntriesPrinted(es[1..], rest);
      assert es == [es[0]] + es[1..];
    }
  }

  /** Every entry takes at least the minimum size, so the guard never refuses what was really printed. */
  lemma {:induction false} EntriesSize(es: seq<Entry>, rest: seq<Byte>)
    ensures |PrintEntries(es, rest)| >= ENTRY_MIN_SIZE * |es| + |rest|
  {
    if es != [] { EntriesSize(es[1..], rest); }
  }

  lemma CountedEntriesPrinted(es: seq<Entry>, rest: seq<Byte>)
    requires Short32(es) && rest != [] && forall i :: 0 <= i < |es| ==> FitsEntry(es[i])
    ensures !CountTooLarge(|es|, |PrintEntries(es, rest)|)
    ensures ReadCountedEntries(Little(4, |es|) + PrintEntries(es, rest)) == Done(es, rest)
  {
    U32Printed(|es|, PrintEntries(es, rest));
    EntriesSize(es, rest);
    EntriesPrinted(es, rest);
  }

  lemma ConfPrinted(c: ConfState, auto: Byte, rest: seq<Byte>)
    requires FitsConf(c) && (auto != 0) == c.autoLeave
    ensures ReadConf(PrintConf(c, auto, rest)) == Done(c, rest)
  {
    hide ReadList, ReadByte, PrintU64List;
    var r4 := PrintU64List(c.learnersNext, [auto] + rest);
    var r3 := PrintU64List(c.votersOutgoing, r4);
    ListPrinted(c.voters, PrintU64List(c.learners, r3));
    ListPrinted(c.learners, r3);
    ListPrinted(c.votersOutgoing, r4);
    ListPrinted(c.learnersNext, [auto] + rest);
    BytePrinted(auto, rest);
  }

  lemma SnapshotPrinted(s: Snapshot, auto: Byte, rest: seq<Byte>)
    requires FitsSnapshot(s) && (auto != 0) == s.confState.autoLeave
    ensures ReadSnapshot(PrintSnapshot(s, auto, rest)) == Done(s, rest)
  {
    hide ReadConf, ReadBlob, ReadU64, PrintConf, PrintBlob;
    var r3 := PrintBlob(s.membership, PrintBlob(s.data, rest));
    var r2 := PrintConf(s.confState, auto, r3);
    U64Printed(s.index, Little(8, s.term) + r2);
    U64Printed(s.term, r2);
    ConfPrinted(s.confState, auto, r3);
    BlobPrinted(s.membership, PrintBlob(s.data, rest));
    BlobPrinted(s.data, rest);
  }

  /** `f` stands for the booleans of `m`. */
  predicate FlagsOf(m: Message, f: Flags) {
    && (f.reject != 0) == m.reject && (f.hasSnapshot != 0) == m.snapshot.Some?
    && (m.snapshot.Some? ==> (f.autoLeave != 0) == m.snapshot.value.confState.autoLeave)
  }

  lemma TailPrinted(s: Option<Snapshot>, f: Flags, rest: seq<Byte>)
    requires s.Some? ==> FitsSnapshot(s.value) && (f.autoLeave != 0) == s.value.confState.autoLeave
    requires (f.hasSnapshot != 0) == s.Some?
    ensures ReadTail(PrintTail(s, f, rest)) == Done(s, rest)
  {
    BytePrinted(f.hasSnapshot, if s.Some? then PrintSnapshot(s.value, f.autoLeave, rest) else rest);
    if s.Some? { SnapshotPrinted(s.value, f.autoLeave, rest); }
  }

  lemma MiddlePrinted(m: Message, f: Flags, rest: seq<Byte>)
    requires Fits(m) && FlagsOf(m, f)
    ensures ReadMiddle([f.reject] + (Little(8, m.rejectHint) + (Little(8, FromSigned(m.priority))
      + PrintBlob(m.context, rest)))) == Done(Middle(m.reject, m.rejectHint, m.priority, m.context), rest)
  {
    hide ReadU64, ReadBlob, PrintBlob;
    var r3 := PrintBlob(m.context, rest);
    var r2 := Little(8, FromSigned(m.priority)) + r3;
    BytePrinted(f.reject, Little(8, m.rejectHint) + r2);
    U64Printed(m.rejectHint, r2);
    U64Printed(FromSigned(m.priority), r3);
    BlobPrinted(m.context, rest);
  }

  /** Whatever non-zero bytes stand for true, a printed message is read back, and what follows it is left. */
  lemma MessagePrinted(m: Message, f: Flags, rest: seq<Byte>)
    requires Fits(m) && FlagsOf(m, f)
    ensures ReadMessage(PrintWith(m, f, rest)) == Done(m, rest)
  {
    hide ReadHead, ReadMiddle, ReadCountedEntries, ReadTail, PrintHead, PrintBlob, PrintEntries;
    var r4 := PrintTail(m.snapshot, f, rest);
    var r3 := Little(4, |m.entries|) + PrintEntries(m.entries, r4);
    var r2 := [f.reject] + (Little(8, m.rejectHint) + (Little(8, FromSigned(m.priority)) + PrintBlob(m.context, r3)));
    BytePrinted(TypeByte(m.msgType), PrintHead(m.head, r2));
    HeadPrinted(m.head, r2);
    MiddlePrinted(m, f, r3);
    CountedEntriesPrinted(m.entries, r4);
    TailPrinted(m.snapshot, f, rest);
  }

  /** Decoding inverts encoding for every message that can be encoded. */
  lemma RoundTrip(m: Message)
    requires Fits(m)
    ensures Decode(Encode(m)) == Ok(m)
  {
    hide ReadMessage, PrintWith;
    MessagePrinted(m, PlainFlags(m), []);
  }

  // ----- Anything but a truncation is settled by the bytes read so far -------------------------

  lemma ByteStable(d: seq<Byte>, more: seq<Byte>)
    ensures ReadByte(d).Done? ==> ReadByte(d + more) == Extended(ReadByte(d), more)
  {
    if d != [] { assert (d + more)[1..] == d[1..] + more; }
  }

  lemma U64Stable(d: seq<Byte>, more: seq<Byte>)
    ensures ReadU64(d).Done? ==> ReadU64(d + more) == Extended(ReadU64(d), more)
  {
    ParseIntStable(8, d, more);
  }

  lemma U32Stable(d: seq<Byte>, more: seq<Byte>)
    ensures ReadU32(d).Done? ==> ReadU32(d + more) == Extended(ReadU32(d), more)
  {
    ParseIntStable(4, d, more);
  }

  lemma BlobStable(d: seq<Byte>, more: seq<Byte>)
    ensures ReadBlob(d).Done? ==> ReadBlob(d + more) == Extended(ReadBlob(d), more)
  {
    ParseBytesStable(d, more);
  }

  lemma ListStable(d: seq<Byte>, more: seq<Byte>)
    ensures ReadList(d).Done? ==> ReadList(d + more) == Extended(ReadList(d), more)
  {
    ParseU64ListStable(d, more);
  }

  /** `r` was not cut short. */
  predicate Settled<T>(r: Read<T>) { r != Fail(TruncatedMessage) }

  lemma EntryStable(d: seq<Byte>, more: seq<Byte>)
    ensures Settled(ReadEntry(d)) ==> ReadEntry(d + more) == Extended(ReadEntry(d), more)
  {
    hide ReadBlob, ReadU64, ReadU32;
    if Settled(ReadEntry(d)) {
      ByteStable(d, more);
      var d1 := ReadByte(d).rest;
      if ReadByte(d).value < 3 {
        U64Stable(d1, more);
        var d2 := ReadU64(d1).rest;
        U64Stable(d2, more);
        var d3 := ReadU64(d2).rest;
        U32Stable(d3, more);
        var d4 := ReadU32(d3).rest;
        BlobStable(d4, more);
        BlobStable(ReadBlob(d4).rest, more);
      }
    }
  }

  lemma {:induction false} EntriesStable(n: nat, d: seq<Byte>, more: seq<Byte>)
    ensures Settled(ReadEntries(n, d)) ==> ReadEntries(n, d + more) == Extended(ReadEntries(n, d), more)
  {
    hide ReadEntry;
    if n > 0 {
      EntryStable(d, more);
      if ReadEntry(d).Done? { EntriesStable(n - 1, ReadEntry(d).rest, more); }
    }
  }

  lemma CountedEntriesStable(d: seq<Byte>, more: seq<Byte>)
    ensures Settled(ReadCountedEntries(d)) ==> ReadCountedEntries(d + more) == Extended(ReadCountedEntries(d), more)
  {
    hide ReadEntries, ReadU32;
    if Settled(ReadCountedEntries(d)) {
      U32Stable(d, more);
      EntriesStable(ReadU32(d).value, ReadU32(d).rest, more);
    }
  }

  lemma ConfStable(d: seq<Byte>, more: seq<Byte>)
    ensures Settled(ReadConf(d)) ==> ReadConf(d + more) == Extended(ReadConf(d), more)
  {
    hide ReadList, ReadByte;
    if Settled(ReadConf(d)) {
      ListStable(d, more);
      var d1 := ReadList(d).rest;
      ListStable(d1, more);
      var d2 := ReadList(d1).rest;
      ListStable(d2, more);
      var d3 := ReadList(d2).rest;
      ListStable(d3, more);
      ByteStable(ReadList(d3).rest, more);
    }
  }

  lemma SnapshotStable(d: seq<Byte>, more: seq<Byte>)
    ensures Settled(ReadSnapshot(d)) ==> ReadSnapshot(d + more) == Extended(ReadSnapshot(d), more)
  {
    hide ReadConf, ReadBlob, ReadU64;
    if Settled(ReadSnapshot(d)) {
      U64Stable(d, more);
      var d1 := ReadU64(d).rest;
      U64Stable(d1, more);
      var d2 := ReadU64(d1).rest;
      ConfStable(d2, more);
      var d3 := ReadConf(d2).rest;
      BlobStable(d3, more);
      BlobStable(ReadBlob(d3).rest, more);
    }
  }

  lemma TailStable(d: seq<Byte>, more: seq<Byte>)
    ensures Settled(ReadTail(d)) ==> ReadTail(d + more) == Extended(ReadTail(d), more)
  {
    hide ReadSnapshot;
    if Settled(ReadTail(d)) {
      ByteStable(d, more);
      if ReadByte(d).value != 0 { SnapshotStable(ReadByte(d).rest, more); }
    }
  }

  lemma MiddleStable(d: seq<Byte>, more: seq<Byte>)
    ensures Settled(ReadMiddle(d)) ==> ReadMiddle(d + more) == Extended(ReadMiddle(d), more)
  {
    hide ReadU64, ReadBlob;
    if Settled(ReadMiddle(d)) {
      ByteStable(d, more);
      var d1 := ReadByte(d).rest;
      U64Stable(d1, more);
      var d2 := ReadU64(d1).rest;
      U64Stable(d2, more);
      BlobStable(ReadU64(d2).rest, more);
    }
  }

  lemma HeadStable(d: seq<Byte>, more: seq<Byte>)
    ensures ReadHead(d).Done? ==> ReadHead(d + more) == Extended(ReadHead(d), more)
  {
    TakeStable(64, d, more);
  }

  lemma MessageStable(d: seq<Byte>, more: seq<Byte>)
    ensures Settled(ReadMessage(d)) ==> ReadMessage(d + more) == Extended(ReadMessage(d), more)
  {
    hide ReadHead, ReadMiddle, ReadCountedEntries, ReadTail;
    if Settled(ReadMessage(d)) {
      ByteStable(d, more);
      var d1 := ReadByte(d).rest;
      if ReadByte(d).value < 19 {
        HeadStable(d1, more);
        var d2 := ReadHead(d1).rest;
        MiddleStable(d2, more);
        var d3 := ReadMiddle(d2).rest;
        CountedEntriesStable(d3, more);
        if ReadCountedEntries(d3).Done? { TailStable(ReadCountedEntries(d3).rest, more); }
      }
    }
  }

  /** Every strict prefix of an encoding is rejected, and always as truncated. */
  lemma StrictPrefixIsTruncated(m: Message, k: nat)
    requires Fits(m) && k < |Encode(m)|
    ensures Decode(Encode(m)[..k]) == Err(TruncatedMessage)
  {
    hide ReadMessage, PrintWith;
    var prefix, more := Encode(m)[..k], Encode(m)[k..];
    assert prefix + more == Encode(m);
    MessagePrinted(m, PlainFlags(m), []);
    MessageStable(prefix, more);
    assert more != [];
  }

  // ----- Nothing else is accepted --------------------------------------------------------------

  lemma ByteExact(d: seq<Byte>)
    ensures ReadByte(d).Done? ==> d == [ReadByte(d).value] + ReadByte(d).rest
  {
  }

  lemma U64Exact(d: seq<Byte>)
    ensures ReadU64(d).Done? ==> d == Little(8, ReadU64(d).value) + ReadU64(d).rest
  {
    ParseIntExact(8, d);
  }

  lemma U32Exact(d: seq<Byte>)
    ensures ReadU32(d).Done? ==> d == Little(4, ReadU32(d).value) + ReadU32(d).rest
  {
    ParseIntExact(4, d);
  }

  lemma BlobExact(d: seq<Byte>)
    ensures ReadBlob(d).Done? ==> Short32(ReadBlob(d).value) && d == PrintBlob(ReadBlob(d).value, ReadBlob(d).rest)
  {
    Limits();
    ParseBytesExact(d);
  }

  lemma ListExact(d: seq<Byte>)
    ensures ReadList(d).Done? ==> Short32(ReadList(d).value) && d == PrintU64List(ReadList(d).value, ReadList(d).rest)
  {
    Limits();
    ParseU64ListExact(d);
  }

  lemma HeadExact(d: seq<Byte>)
    ensures ReadHead(d).Done? ==> d == PrintHead(ReadHead(d).value, ReadHead(d).rest)
  {
    if |d| >= 64 {
      var v := SplitU64s(d[..64]);
      assert v == [v[0], v[1], v[2], v[3], v[4], v[5], v[6], v[7]];
      PrintSplit(d[..64]);
      assert d == d[..64] + d[64..];
    }
  }

  lemma EntryExact(d: seq<Byte>)
    ensures ReadEntry(d).Done? ==>
      FitsEntry(ReadEntry(d).value) && d == PrintEntry(ReadEntry(d).value, ReadEntry(d).rest)
  {
    hide ReadU64, ReadU32, ReadBlob, PrintBlob;
    if ReadEntry(d).Done? {
      ByteExact(d);
      var d1 := ReadByte(d).rest;
      U64Exact(d1);
      var d2 := ReadU64(d1).rest;
      U64Exact(d2);
      var d3 := ReadU64(d2).rest;
      U32Exact(d3);
      var d4 := ReadU32(d3).rest;
      BlobExact(d4);
      BlobExact(ReadBlob(d4).rest);
      assert EntryByte(ENTRY_TYPES[ReadByte(d).value]) == ReadByte(d).value;
    }
  }

  lemma {:induction false} EntriesExact(n: nat, d: seq<Byte>)
    ensures ReadEntries(n, d).Done? ==>
      var r := ReadEntries(n, d);
      |r.value| == n && (forall i :: 0 <= i < n ==> FitsEntry(r.value[i])) && d == PrintEntries(r.value, r.rest)
  {
    hide ReadEntry, PrintEntry;
    if n > 0 && ReadEntries(n, d).Done? {
      EntryExact(d);
      EntriesExact(n - 1, ReadEntry(d).rest);
      var es := ReadEntries(n, d).value;
      assert es[1..] == ReadEntries(n - 1, ReadEntry(d).rest).value;
    }
  }

  lemma ConfExact(d: seq<Byte>) returns (auto: Byte)
    ensures ReadConf(d).Done? ==> FitsConf(ReadConf(d).value)
    ensures ReadConf(d).Done? ==> (auto != 0) == ReadConf(d).value.autoLeave
    ensures ReadConf(d).Done? ==> d == PrintConf(ReadConf(d).value, auto, ReadConf(d).rest)
  {
    hide ReadList, PrintU64List;
    auto := 0;
    if ReadConf(d).Done? {
      ListExact(d);
      var d1 := ReadList(d).rest;
      ListExact(d1);
      var d2 := ReadList(d1).rest;
      ListExact(d2);
      var d3 := ReadList(d2).rest;
      ListExact(d3);
      var d4 := ReadList(d3).rest;
      ByteExact(d4);
      auto := ReadByte(d4).value;
    }
  }

  lemma SnapshotExact(d: seq<Byte>) returns (auto: Byte)
    ensures ReadSnapshot(d).Done? ==> FitsSnapshot(ReadSnapshot(d).value)
    ensures ReadSnapshot(d).Done? ==> (auto != 0) == ReadSnapshot(d).value.confState.autoLeave
    ensures ReadSnapshot(d).Done? ==> d == PrintSnapshot(ReadSnapshot(d).value, auto, ReadSnapshot(d).rest)
  {
    hide ReadU64, ReadConf, ReadBlob, PrintConf, PrintBlob;
    auto := 0;
    if ReadSnapshot(d).Done? {
      U64Exact(d);
      var d1 := ReadU64(d).rest;
      U64Exact(d1);
      var d2 := ReadU64(d1).rest;
      auto := ConfExact(d2);
      var d3 := ReadConf(d2).rest;
      BlobExact(d3);
      BlobExact(ReadBlob(d3).rest);
    }
  }

  lemma TailExact(d: seq<Byte>) returns (has: Byte, auto: Byte)
    ensures ReadTail(d).Done? ==>
      var s := ReadTail(d).value;
      && (has != 0) == s.Some?
      && (s.Some? ==> FitsSnapshot(s.value) && (auto != 0) == s.value.confState.autoLeave)
      && forall reject :: d == PrintTail(s, Flags(reject, has, auto), ReadTail(d).rest)
  {
    hide ReadSnapshot, PrintSnapshot;
    has, auto := 0, 0;
    if ReadTail(d).Done? {
      ByteExact(d);
      has := ReadByte(d).value;
      if has != 0 { auto := SnapshotExact(ReadByte(d).rest); }
    }
  }

  lemma MiddleExact(d: seq<Byte>) returns (reject: Byte)
    ensures ReadMiddle(d).Done? ==>
      var m := ReadMiddle(d).value;
      && (reject != 0) == m.reject && Short32(m.context)
      && d == [reject] + (Little(8, m.rejectHint) + (Little(8, FromSigned(m.priority))
          + PrintBlob(m.context, ReadMiddle(d).rest)))
  {
    hide ReadU64, ReadBlob, PrintBlob, Little;
    reject := 0;
    if ReadMiddle(d).Done? {
      ByteExact(d);
      reject := ReadByte(d).value;
      var d1 := ReadByte(d).rest;
      U64Exact(d1);
      var d2 := ReadU64(d1).rest;
      U64Exact(d2);
      BlobExact(ReadU64(d2).rest);
    }
  }

  lemma CountedEntriesExact(d: seq<Byte>)
    ensures ReadCountedEntries(d).Done? ==>
      var r := ReadCountedEntries(d);
      && Short32(r.value) && (forall i :: 0 <= i < |r.value| ==> FitsEntry(r.value[i]))
      && d == Little(4, |r.value|) + PrintEntries(r.value, r.rest)
  {
    hide ReadEntries, PrintEntries, Little;
    if ReadCountedEntries(d).Done? {
      U32Exact(d);
      EntriesExact(ReadU32(d).value, ReadU32(d).rest);
    }
  }

  /** Accepted bytes are an encoding of what they decode to, up to the choice of the flag bytes. */
  lemma MessageExact(d: seq<Byte>) returns (f: Flags)
    requires ReadMessage(d).Done?
    ensures var m := ReadMessage(d).value;
      Fits(m) && FlagsOf(m, f) && d == PrintWith(m, f, ReadMessage(d).rest)
  {
    hide ReadHead, ReadMiddle, ReadTail, ReadCountedEntries, PrintHead, PrintBlob, PrintEntries, PrintTail, Little;
    ByteExact(d);
    var d1 := ReadByte(d).rest;
    HeadExact(d1);
    var d2 := ReadHead(d1).rest;
    var reject := MiddleExact(d2);
    var d3 := ReadMiddle(d2).rest;
    CountedEntriesExact(d3);
    var d4 := ReadCountedEntries(d3).rest;
    var has, auto := TailExact(d4);
    f := Flags(reject, has, auto);
    assert TypeByte(MESSAGE_TYPES[ReadByte(d).value]) == ReadByte(d).value;
  }

  /** Re-encoding an accepted input gives it back with its three flag bytes normalised, and nothing else changed. */
  lemma ReencodingNormalisesFlags(d: seq<Byte>) returns (f: Flags)
    requires Decode(d).Ok?
    ensures Fits(Decode(d).value) && FlagsOf(Decode(d).value, f)
    ensures d == PrintWith(Decode(d).value, f, [])
    ensures f == PlainFlags(Decode(d).value) ==> Encode(Decode(d).value) == d
  {
    f := MessageExact(d);
  }

  // ----- Where everything stands on the wire ---------------------------------------------------

  /** The eight words of the head follow the type byte. */
  ghost predicate HeadAt(d: seq<Byte>, h: Head) {
    && At(d, 1, Little(8, h.to)) && At(d, 9, Little(8, h.from)) && At(d, 17, Little(8, h.term))
    && At(d, 25, Little(8, h.logTerm)) && At(d, 33, Little(8, h.index)) && At(d, 41, Little(8, h.commit))
    && At(d, 49, Little(8, h.commitTerm)) && At(d, 57, Little(8, h.requestSnapshot))
  }

  /** Then the rejection, its hint, the priority in two's complement, the context and the number of entries. */
  lemma MessageLayout(m: Message, f: Flags, rest: seq<Byte>)
    requires Fits(m)
    ensures var d := PrintWith(m, f, rest); var c := |m.context|;
      && |d| >= 90 + c && d[0] == TypeByte(m.msgType) && HeadAt(d, m.head)
      && d[65] == f.reject && At(d, 66, Little(8, m.rejectHint))
      && At(d, 74, Little(8, if m.priority < 0 then 0x1_0000_0000_0000_0000 + m.priority else m.priority))
      && At(d, 82, Little(4, c)) && At(d, 86, m.context) && At(d, 86 + c, Little(4, |m.entries|))
      && d[90 + c..] == PrintEntries(m.entries, PrintTail(m.snapshot, f, rest))
  {
    hide Little, PrintU64s, PrintEntries, PrintTail;
    var d, c := PrintWith(m, f, rest), |m.context|;
    var tail := PrintEntries(m.entries, PrintTail(m.snapshot, f, rest));
    var r5 := Little(4, |m.entries|) + tail;
    var r4 := PrintBytes(m.context) + r5;
    var r3 := Little(8, FromSigned(m.priority)) + r4;
    var r2 := Little(8, m.rejectHint) + r3;
    var r1 := [f.reject] + r2;
    assert d[0..] == [TypeByte(m.msgType)] + PrintHead(m.head, r1);
    Next(d, 0, [TypeByte(m.msgType)], PrintHead(m.head, r1));
    HeadLayout(d, m.head, r1);
    Next(d, 65, [f.reject], r2);
    Next(d, 66, Little(8, m.rejectHint), r3);
    Next(d, 74, Little(8, FromSigned(m.priority)), r4);
    BlobLayout(d, 82, m.context, r5);
    Next(d, 86 + c, Little(4, |m.entries|), tail);
    assert d[65..66] == [f.reject] && d[0..1] == [TypeByte(m.msgType)];
  }

  lemma HeadLayout(d: seq<Byte>, h: Head, rest: seq<Byte>)
    requires |d| > 0 && d[1..] == PrintHead(h, rest)
    ensures HeadAt(d, h) && |d| >= 65 && d[65..] == rest
  {
    hide Little, PrintU64s;
    var words := [h.to, h.from, h.term, h.logTerm, h.index, h.commit, h.commitTerm, h.requestSnapshot];
    Next(d, 1, PrintU64s(words), rest);
    forall k: nat | k < 8 ensures At(d, 1 + 8 * k, Little(8, words[k])) {
      U64sAt(words, k);
      AtWithin(d, 1, PrintU64s(words), 8 * k, Little(8, words[k]));
    }
    assert words[0] == h.to && words[1] == h.from && words[2] == h.term && words[3] == h.logTerm;
    assert words[4] == h.index && words[5] == h.commit && words[6] == h.commitTerm && words[7] == h.requestSnapshot;
    assert forall k: nat {:trigger words[k]} :: k < 8 ==> At(d, 1 + 8 * k, Little(8, words[k]));
  }

  /** A byte string stands behind its length. */
  lemma BlobLayout(d: seq<Byte>, o: nat, b: seq<Byte>, rest: seq<Byte>)
    requires o <= |d| && d[o..] == PrintBytes(b) + rest
    ensures At(d, o, Little(4, |b|)) && At(d, o + 4, b)
    ensures o + 4 + |b| <= |d| && d[o + 4 + |b|..] == rest
  {
    hide Little;
    Regroup(Little(4, |b|), b, rest);
    Next(d, o, Little(4, |b|), b + rest);
    Next(d, o + 4, b, rest);
  }

  function EntrySize(e: Entry): nat { 29 + |e.data| + |e.context| }

  /** An entry: its type, term, index and checksum, and two byte strings. */
  ghost predicate EntryAt(d: seq<Byte>, o: nat, e: Entry) {
    && o + EntrySize(e) <= |d| && d[o] == EntryByte(e.entryType)
    && At(d, o + 1, Little(8, e.term)) && At(d, o + 9, Little(8, e.index)) && At(d, o + 17, Little(4, e.checksum))
    && At(d, o + 21, Little(4, |e.data|)) && At(d, o + 25, e.data)
    && At(d, o + 25 + |e.data|, Little(4, |e.context|)) && At(d, o + 29 + |e.data|, e.context)
  }

  lemma EntryLayout(d: seq<Byte>, o: nat, e: Entry, rest: seq<Byte>)
    requires o <= |d| && d[o..] == PrintEntry(e, rest)
    ensures EntryAt(d, o, e) && d[o + EntrySize(e)..] == rest
  {
    hide Little;
    var r5 := PrintBytes(e.context) + rest;
    var r4 := PrintBytes(e.data) + r5;
    var r3 := Little(4, e.checksum) + r4;
    var r2 := Little(8, e.index) + r3;
    var r1 := Little(8, e.term) + r2;
    Next(d, o, [EntryByte(e.entryType)], r1);
    assert d[o..o + 1] == [EntryByte(e.entryType)];
    Next(d, o + 1, Little(8, e.term), r2);
    Next(d, o + 9, Little(8, e.index), r3);
    Next(d, o + 17, Little(4, e.checksum), r4);
    BlobLayout(d, o + 21, e.data, r5);
    BlobLayout(d, o + 25 + |e.data|, e.context, rest);
  }

  function Sizes(es: seq<Entry>, k: nat): nat
    requires k <= |es|
  {
    if k == 0 then 0 else EntrySize(es[0]) + Sizes(es[1..], k - 1)
  }

  /** The entries stand one behind the other. */
  lemma {:induction false} EntriesLayout(d: seq<Byte>, o: nat, es: seq<Entry>, rest: seq<Byte>, k: nat)
    requires o <= |d| && d[o..] == PrintEntries(es, rest) && k <= |es|
    ensures k < |es| ==> EntryAt(d, o + Sizes(es, k), es[k])
    ensures k == |es| ==> o + Sizes(es, k) <= |d| && d[o + Sizes(es, k)..] == rest
    decreases k
  {
    hide PrintEntry, EntryAt;
    if es != [] {
      EntryLayout(d, o, es[0], PrintEntries(es[1..], rest));
      if k > 0 {
        assert o + EntrySize(es[0]) <= |d| by { EntryInside(d, o, es[0]); }
        EntriesLayout(d, o + EntrySize(es[0]), es[1..], rest, k - 1);
      }
    }
  }

  lemma EntryInside(d: seq<Byte>, o: nat, e: Entry)
    requires EntryAt(d, o, e)
    ensures o + EntrySize(e) <= |d|
  {
  }

  function ConfSize(c: ConfState): nat {
    17 + 8 * |c.voters| + 8 * |c.learners| + 8 * |c.votersOutgoing| + 8 * |c.learnersNext|
  }

  /** Voters, learners, outgoing voters, learners-to-be and the byte for auto-leave. */
  ghost predicate ConfAt(d: seq<Byte>, o: nat, c: ConfState, auto: Byte) {
    && o + ConfSize(c) <= |d| && d[o + ConfSize(c) - 1] == auto
    && ListAt(d, o, c.voters) && ListAt(d, o + 4 + 8 * |c.voters|, c.learners)
    && ListAt(d, o + 8 + 8 * |c.voters| + 8 * |c.learners|, c.votersOutgoing)
    && ListAt(d, o + 12 + 8 * |c.voters| + 8 * |c.learners| + 8 * |c.votersOutgoing|, c.learnersNext)
  }

  lemma ConfLayout(d: seq<Byte>, o: nat, c: ConfState, auto: Byte, rest: seq<Byte>)
    requires o <= |d| && d[o..] == PrintConf(c, auto, rest)
    ensures ConfAt(d, o, c, auto) && d[o + ConfSize(c)..] == rest
  {
    hide ListAt, PrintU64List, At;
    var r4 := [auto] + rest;
    var r3 := PrintU64List(c.learnersNext, r4);
    var r2 := PrintU64List(c.votersOutgoing, r3);
    var r1 := PrintU64List(c.learners, r2);
    ListLayout(d, o, c.voters, r1);
    var p := o + 4 + 8 * |c.voters|;
    ListLayout(d, p, c.learners, r2);
    var q := p + 4 + 8 * |c.learners|;
    ListLayout(d, q, c.votersOutgoing, r3);
    var r := q + 4 + 8 * |c.votersOutgoing|;
    ListLayout(d, r, c.learnersNext, r4);
    LastByte(d, o + ConfSize(c) - 1, auto, rest);
  }

  lemma LastByte(d: seq<Byte>, o: nat, b: Byte, rest: seq<Byte>)
    requires o <= |d| && d[o..] == [b] + rest
    ensures o < |d| && d[o] == b && d[o + 1..] == rest
  {
    assert d[o..][0] == b && d[o..][1..] == d[o + 1..];
  }

  /** Announced by one byte: index and term, the configuration, the membership and the data. */
  ghost predicate SnapshotAt(d: seq<Byte>, s: Snapshot, f: Flags) {
    var n := 17 + ConfSize(s.confState);
    && |d| > 0 && d[0] == f.hasSnapshot && At(d, 1, Little(8, s.index)) && At(d, 9, Little(8, s.term))
    && ConfAt(d, 17, s.confState, f.autoLeave)
    && At(d, n, Little(4, |s.membership|)) && At(d, n + 4, s.membership)
    && At(d, n + 4 + |s.membership|, Little(4, |s.data|)) && At(d, n + 8 + |s.membership|, s.data)
  }

  lemma SnapshotLayout(s: Snapshot, f: Flags, rest: seq<Byte>)
    ensures SnapshotAt(PrintTail(Some(s), f, rest), s, f)
  {
    hide Little, ListAt, ConfAt, ConfSize, PrintConf, At, PrintBytes;
    var d, n := PrintTail(Some(s), f, rest), 17 + ConfSize(s.confState);
    var r4 := PrintBytes(s.data) + rest;
    var r3 := PrintBytes(s.membership) + r4;
    var r2 := PrintConf(s.confState, f.autoLeave, r3);
    var r1 := Little(8, s.term) + r2;
    LastByte(d, 0, f.hasSnapshot, Little(8, s.index) + r1);
    Next(d, 1, Little(8, s.index), r1);
    Next(d, 9, Little(8, s.term), r2);
    ConfLayout(d, 17, s.confState, f.autoLeave, r3);
    ConfInside(d, 17, s.confState, f.autoLeave);
    BlobLayout(d, n, s.membership, r4);
    BlobLayout(d, n + 4 + |s.membership|, s.data, rest);
  }

  lemma ConfInside(d: seq<Byte>, o: nat, c: ConfState, auto: Byte)
    requires ConfAt(d, o, c, auto)
    ensures o + ConfSize(c) <= |d| && d[o + ConfSize(c) - 1] == auto && ConfSize(c) > 0
  {
  }

  /** A list of ids: how many, then each in eight bytes. */
  ghost predicate ListAt(d: seq<Byte>, o: nat, vs: seq<U64>) {
    At(d, o, Little(4, |vs|)) && forall k: nat :: k < |vs| ==> WordAt(d, o + 4, k, vs[k])
  }

  ghost predicate WordAt(d: seq<Byte>, o: nat, k: nat, v: U64) { At(d, o + 8 * k, Little(8, v)) }

  lemma ListLayout(d: seq<Byte>, o: nat, vs: seq<U64>, rest: seq<Byte>)
    requires o <= |d| && d[o..] == PrintU64List(vs, rest)
    ensures ListAt(d, o, vs) && o + 4 + 8 * |vs| <= |d| && d[o + 4 + 8 * |vs|..] == rest
  {
    hide Little, PrintU64s;
    Next(d, o, Little(4, |vs|), PrintU64s(vs) + rest);
    Next(d, o + 4, PrintU64s(vs), rest);
    forall k: nat | k < |vs| ensures WordAt(d, o + 4, k, vs[k]) {
      U64sAt(vs, k);
      AtWithin(d, o + 4, PrintU64s(vs), 8 * k, Little(8, vs[k]));
    }
  }

  // ----- Flags and refusals --------------------------------------------------------------------

  /** Re-encoding an accepted input gives back that very input exactly when its flag bytes are 0 or 1. */
  lemma ReencodedExactly(d: seq<Byte>) returns (f: Flags)
    requires Decode(d).Ok?
    ensures Fits(Decode(d).value) && FlagsOf(Decode(d).value, f) && d == PrintWith(Decode(d).value, f, [])
    ensures Encode(Decode(d).value) == d
      <==> f.reject <= 1 && f.hasSnapshot <= 1 && (Decode(d).value.snapshot.Some? ==> f.autoLeave <= 1)
  {
    hide ReadMessage, PrintWith;
    f := ReencodingNormalisesFlags(d);
    var m := Decode(d).value;
    var g := PlainFlags(m);
    if f.reject <= 1 && f.hasSnapshot <= 1 && (m.snapshot.Some? ==> f.autoLeave <= 1) { OnlyFlags(m, f, g); }
    if Encode(m) == d { FlagsShow(m, f, g); }
  }

  /** The encoder writes 0 for false and 1 for true. */
  lemma EncodedFlags(m: Message)
    ensures PlainFlags(m).reject == (if m.reject then 1 else 0)
    ensures PlainFlags(m).hasSnapshot == (if m.snapshot.Some? then 1 else 0)
    ensures m.snapshot.Some? ==> PlainFlags(m).autoLeave == (if m.snapshot.value.confState.autoLeave then 1 else 0)
  {
  }

  /** The flag bytes can be read off a printed message. */
  lemma FlagsShow(m: Message, f: Flags, g: Flags)
    requires Fits(m) && PrintWith(m, f, []) == PrintWith(m, g, [])
    ensures f.reject == g.reject && f.hasSnapshot == g.hasSnapshot && (m.snapshot.Some? ==> f.autoLeave == g.autoLeave)
  {
    hide PrintWith, HeadAt, Little, PrintEntries, PrintTail, ConfAt, ConfSize;
    var d, o := PrintWith(m, f, []), 90 + |m.context|;
    MessageLayout(m, f, []);
    MessageLayout(m, g, []);
    EntriesLayout(d, o, m.entries, PrintTail(m.snapshot, f, []), |m.entries|);
    EntriesLayout(d, o, m.entries, PrintTail(m.snapshot, g, []), |m.entries|);
    assert PrintTail(m.snapshot, f, []) == PrintTail(m.snapshot, g, []);
    TailBegins(m.snapshot, f);
    TailBegins(m.snapshot, g);
    if m.snapshot.Some? {
      SnapshotLayout(m.snapshot.value, f, []);
      SnapshotLayout(m.snapshot.value, g, []);
      ConfInside(PrintTail(m.snapshot, f, []), 17, m.snapshot.value.confState, f.autoLeave);
      ConfInside(PrintTail(m.snapshot, g, []), 17, m.snapshot.value.confState, g.autoLeave);
    }
  }

  lemma TailBegins(s: Option<Snapshot>, f: Flags)
    ensures |PrintTail(s, f, [])| > 0 && PrintTail(s, f, [])[0] == f.hasSnapshot
  {
  }

  lemma OnlyFlags(m: Message, f: Flags, g: Flags)
    requires Fits(m) && f.reject == g.reject && f.hasSnapshot == g.hasSnapshot
    requires m.snapshot.Some? ==> f.autoLeave == g.autoLeave
    ensures PrintWith(m, f, []) == PrintWith(m, g, [])
  {
  }

  /** No other input is a message of an unknown type than one that begins with a byte past the last type. */
  lemma UnknownTypeExactly(d: seq<Byte>)
    ensures Decode(d) == Err(InvalidMessageType) <==> d != [] && d[0] >= 19
  {
    hide ReadHead, ReadMiddle, ReadTail, ReadCountedEntries;
    if d != [] && d[0] < 19 && ReadHead(d[1..]).Done? && ReadMiddle(ReadHead(d[1..]).rest).Done? {
      CountedErrors(ReadMiddle(ReadHead(d[1..]).rest).rest);
    }
  }

  lemma CountedErrors(d: seq<Byte>)
    ensures ReadCountedEntries(d).Fail? ==> ReadCountedEntries(d).error in {TruncatedMessage, InvalidEntryType}
  {
    hide ReadEntries;
    if ReadU32(d).Done? { EntriesErrors(ReadU32(d).value, ReadU32(d).rest); }
  }

  lemma {:induction false} EntriesErrors(n: nat, d: seq<Byte>)
    ensures ReadEntries(n, d).Fail? ==> ReadEntries(n, d).error in {TruncatedMessage, InvalidEntryType}
  {
    hide ReadU64, ReadU32, ReadBlob;
    if n > 0 && ReadEntry(d).Done? { EntriesErrors(n - 1, ReadEntry(d).rest); }
  }

  lemma DecodeErrors(d: seq<Byte>)
    ensures Decode(d).Err? ==>
      Decode(d).error in {TruncatedMessage, InvalidMessageType, InvalidEntryType, TrailingData}
  {
    hide ReadHead, ReadMiddle, ReadTail, ReadCountedEntries;
    if d != [] && d[0] < 19 && ReadHead(d[1..]).Done? && ReadMiddle(ReadHead(d[1..]).rest).Done? {
      CountedErrors(ReadMiddle(ReadHead(d[1..]).rest).rest);
    }
  }
}

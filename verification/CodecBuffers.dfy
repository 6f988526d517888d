/** The codec's encoder and decoder as they run: a growing buffer, a moving cursor, frames and envelopes. */
module CodecBuffers {
  import opened Common
  import opened Bytes
  import opened Codec
  import ConfRestore

  datatype EncodeError = MessageTooLarge | InvalidGroupId

  // ----- Printed parts end where they are told to ----------------------------------------------

  lemma EntryEnds(e: Entry, rest: seq<Byte>)
    ensures PrintEntry(e, rest) == PrintEntry(e, []) + rest
  {
    BlobEnds(e.context, rest);
    BlobEnds(e.data, PrintBlob(e.context, rest));
    BlobEnds(e.data, PrintBlob(e.context, []));
  }

  lemma BlobEnds(b: seq<Byte>, rest: seq<Byte>)
    ensures PrintBlob(b, rest) == PrintBlob(b, []) + rest
  {
  }

  lemma {:induction false} EntriesEnd(es: seq<Entry>, rest: seq<Byte>)
    ensures PrintEntries(es, rest) == PrintEntries(es, []) + rest
  {
    hide PrintEntry;
    if es != [] {
      EntriesEnd(es[1..], rest);
      EntryEnds(es[0], PrintEntries(es[1..], rest));
      EntryEnds(es[0], PrintEntries(es[1..], []));
    }
  }

  lemma {:induction false} EntriesAppend(es: seq<Entry>, e: Entry)
    ensures PrintEntries(es + [e], []) == PrintEntries(es, []) + PrintEntry(e, [])
  {
    hide PrintEntry;
    if es == [] {
      assert PrintEntries([e], []) == PrintEntry(e, PrintEntries([e][1..], []));
      assert [] + [e] == [e];
    } else {
      assert (es + [e])[1..] == es[1..] + [e];
      EntriesAppend(es[1..], e);
      EntryEnds(es[0], PrintEntries(es[1..] + [e], []));
      EntryEnds(es[0], PrintEntries(es[1..], []));
    }
  }

  // ----- The encoder ---------------------------------------------------------------------------

  method WriteBytes(buf: seq<Byte>, b: seq<Byte>) returns (r: Option<seq<Byte>>)
    ensures r == if Short32(b) then Some(buf + PrintBlob(b, [])) else None
  {
    if |b| >= 0x1_0000_0000 { return None; }
    Regroup(buf, Little(4, |b|), b);
    assert PrintBlob(b, []) == Little(4, |b|) + b;
    return Some(buf + Little(4, |b|) + b);
  }

  method WriteU64Slice(buf: seq<Byte>, vs: seq<U64>) returns (r: Option<seq<Byte>>)
    ensures r == if Short32(vs) then Some(buf + PrintU64List(vs, [])) else None
  {
    if |vs| >= 0x1_0000_0000 { return None; }
    var out := WriteAll(buf + Little(4, |vs|), vs);
    Regroup(buf, Little(4, |vs|), PrintU64s(vs));
    assert PrintU64s(vs) + [] == PrintU64s(vs);
    return Some(out);
  }

  lemma ListEnds(vs: seq<U64>, rest: seq<Byte>)
    ensures PrintU64List(vs, rest) == PrintU64List(vs, []) + rest
  {
    assert PrintU64s(vs) + [] == PrintU64s(vs);
  }

  lemma ConfInOrder(c: ConfState, auto: Byte, rest: seq<Byte>)
    ensures PrintConf(c, auto, rest) == PrintU64List(c.voters, []) + PrintU64List(c.learners, [])
      + PrintU64List(c.votersOutgoing, []) + PrintU64List(c.learnersNext, []) + [auto] + rest
  {
    hide PrintU64List;
    var r4 := PrintU64List(c.learnersNext, [auto] + rest);
    var r3 := PrintU64List(c.votersOutgoing, r4);
    ListEnds(c.voters, PrintU64List(c.learners, r3));
    ListEnds(c.learners, r3);
    ListEnds(c.votersOutgoing, r4);
    ListEnds(c.learnersNext, [auto] + rest);
  }

  lemma ConfEnds(c: ConfState, auto: Byte, rest: seq<Byte>)
    ensures PrintConf(c, auto, rest) == PrintConf(c, auto, []) + rest
  {
    hide PrintConf;
    ConfInOrder(c, auto, rest);
    ConfInOrder(c, auto, []);
  }

  method WriteConfState(buf: seq<Byte>, c: ConfState) returns (r: Option<seq<Byte>>)
    ensures r == if FitsConf(c) then Some(buf + PrintConf(c, BoolByte(c.autoLeave), [])) else None
  {
    hide PrintConf, PrintU64List;
    var a := WriteU64Slice(buf, c.voters);
    if a.None? { return None; }
    var b := WriteU64Slice(a.value, c.learners);
    if b.None? { return None; }
    var o := WriteU64Slice(b.value, c.votersOutgoing);
    if o.None? { return None; }
    var n := WriteU64Slice(o.value, c.learnersNext);
    if n.None? { return None; }
    ConfInOrder(c, BoolByte(c.autoLeave), []);
    var out := n.value + [BoolByte(c.autoLeave)];
    assert out == buf + PrintConf(c, BoolByte(c.autoLeave), []);
    return Some(out);
  }

  lemma SnapshotInOrder(s: Snapshot, auto: Byte, rest: seq<Byte>)
    ensures PrintSnapshot(s, auto, rest) == Little(8, s.index) + Little(8, s.term)
      + PrintConf(s.confState, auto, []) + PrintBlob(s.membership, []) + PrintBlob(s.data, []) + rest
  {
    hide PrintConf, PrintBlob;
    ConfEnds(s.confState, auto, PrintBlob(s.membership, PrintBlob(s.data, rest)));
    BlobEnds(s.membership, PrintBlob(s.data, rest));
    BlobEnds(s.data, rest);
  }

  method WriteSnapshot(buf: seq<Byte>, s: Snapshot) returns (r: Option<seq<Byte>>)
    ensures r == if FitsSnapshot(s) then Some(buf + PrintSnapshot(s, BoolByte(s.confState.autoLeave), [])) else None
  {
    hide PrintSnapshot, PrintConf, PrintBlob;
    var out := buf + Little(8, s.index) + Little(8, s.term);
    var c := WriteConfState(out, s.confState);
    if c.None? { return None; }
    var m := WriteBytes(c.value, s.membership);
    if m.None? { return None; }
    var d := WriteBytes(m.value, s.data);
    if d.None? { return None; }
    SnapshotInOrder(s, BoolByte(s.confState.autoLeave), []);
    assert d.value == buf + PrintSnapshot(s, BoolByte(s.confState.autoLeave), []);
    return d;
  }

  method WriteEntry(buf: seq<Byte>, e: Entry) returns (r: Option<seq<Byte>>)
    ensures r == if FitsEntry(e) then Some(buf + PrintEntry(e, [])) else None
  {
    hide PrintBlob;
    var out := buf + [EntryByte(e.entryType)] + Little(8, e.term) + Little(8, e.index) + Little(4, e.checksum);
    var d := WriteBytes(out, e.data);
    if d.None? { return None; }
    var c := WriteBytes(d.value, e.context);
    if c.None? { return None; }
    BlobEnds(e.data, PrintBlob(e.context, []));
    assert c.value == buf + PrintEntry(e, []);
    return c;
  }

  method WriteEntries(buf: seq<Byte>, es: seq<Entry>) returns (r: Option<seq<Byte>>)
    ensures r.Some? <==> forall i :: 0 <= i < |es| ==> FitsEntry(es[i])
    ensures r.Some? ==> r.value == buf + PrintEntries(es, [])
  {
    hide PrintEntry, FitsEntry;
    var out := buf;
    for i := 0 to |es|
      invariant out == buf + PrintEntries(es[..i], [])
      invariant forall j :: 0 <= j < i ==> FitsEntry(es[j])
    {
      EntriesAppend(es[..i], es[i]);
      assert es[..i + 1] == es[..i] + [es[i]];
      Regroup(buf, PrintEntries(es[..i], []), PrintEntry(es[i], []));
      var e := WriteEntry(out, es[i]);
      if e.None? { return None; }
      out := e.value;
    }
    assert es[..|es|] == es;
    return Some(out);
  }

  /** Everything up to the entry count, in the order it is written. */
  ghost function Front(m: Message): seq<Byte> {
    var h := m.head;
    [TypeByte(m.msgType)]
    + PrintU64s([h.to, h.from, h.term, h.logTerm, h.index, h.commit, h.commitTerm, h.requestSnapshot])
    + [BoolByte(m.reject)] + Little(8, m.rejectHint) + Little(8, FromSigned(m.priority))
    + PrintBlob(m.context, []) + Little(4, |m.entries|)
  }

  lemma FrontThen(m: Message, rest: seq<Byte>)
    ensures Front(m) + rest == [TypeByte(m.msgType)] + PrintHead(m.head, [BoolByte(m.reject)] + (Little(8, m.rejectHint)
      + (Little(8, FromSigned(m.priority)) + PrintBlob(m.context, Little(4, |m.entries|) + rest))))
  {
    hide PrintBlob, PrintU64s, Little;
    BlobEnds(m.context, Little(4, |m.entries|) + rest);
    var h := m.head;
    var words := PrintU64s([h.to, h.from, h.term, h.logTerm, h.index, h.commit, h.commitTerm, h.requestSnapshot]);
    var r3 := PrintBlob(m.context, []) + Little(4, |m.entries|);
    var r2 := Little(8, FromSigned(m.priority)) + r3;
    var r1 := Little(8, m.rejectHint) + r2;
    assert Front(m) == [TypeByte(m.msgType)] + words + [BoolByte(m.reject)] + r1;
    assert Little(8, FromSigned(m.priority)) + (PrintBlob(m.context, []) + (Little(4, |m.entries|) + rest))
      == r2 + rest;
  }

  lemma EncodeInOrder(m: Message)
    requires Fits(m)
    ensures Encode(m) == Front(m) + PrintEntries(m.entries, []) + PrintTail(m.snapshot, PlainFlags(m), [])
  {
    hide PrintBlob, PrintEntries, PrintTail, PrintHead, Front;
    var tail := PrintTail(m.snapshot, PlainFlags(m), []);
    EntriesEnd(m.entries, tail);
    FrontThen(m, PrintEntries(m.entries, tail));
    Regroup(Front(m), PrintEntries(m.entries, []), tail);
  }

  method WriteFront(m: Message) returns (r: Option<seq<Byte>>)
    ensures r == if Short32(m.context) && Short32(m.entries) then Some(Front(m)) else None
  {
    hide PrintBlob, PrintU64s;
    var h := m.head;
    var buf := WriteAll([TypeByte(m.msgType)],
      [h.to, h.from, h.term, h.logTerm, h.index, h.commit, h.commitTerm, h.requestSnapshot]);
    buf := buf + [BoolByte(m.reject)] + Little(8, m.rejectHint) + Little(8, FromSigned(m.priority));
    var c := WriteBytes(buf, m.context);
    if c.None? { return None; }
    if |m.entries| >= 0x1_0000_0000 { return None; }
    return Some(c.value + Little(4, |m.entries|));
  }

  method WriteTail(buf: seq<Byte>, m: Message) returns (r: Option<seq<Byte>>)
    ensures r.Some? <==> (m.snapshot.Some? ==> FitsSnapshot(m.snapshot.value))
    ensures r.Some? ==> r.value == buf + PrintTail(m.snapshot, PlainFlags(m), [])
  {
    hide PrintSnapshot, FitsSnapshot;
    if m.snapshot.None? {
      assert PrintTail(m.snapshot, PlainFlags(m), []) == [0];
      return Some(buf + [0]);
    }
    r := WriteSnapshot(buf + [1], m.snapshot.value);
    if r.Some? {
      Regroup(buf, [1], PrintSnapshot(m.snapshot.value, BoolByte(m.snapshot.value.confState.autoLeave), []));
    }
  }

  /** A message is encoded exactly when every length in it fits the wire. */
  method EncodeMessage(m: Message) returns (r: Result<seq<Byte>, EncodeError>)
    ensures r == if Fits(m) then Ok(Encode(m)) else Err(MessageTooLarge)
  {
    hide Front, PrintEntries, PrintTail, Encode, FitsEntry, FitsSnapshot, Short32;
    var front := WriteFront(m);
    if front.None? { return Err(MessageTooLarge); }
    var entries := WriteEntries(front.value, m.entries);
    if entries.None? { return Err(MessageTooLarge); }
    var all := WriteTail(entries.value, m);
    if all.None? { return Err(MessageTooLarge); }
    EncodeInOrder(m);
    return Ok(all.value);
  }

  // ----- The decoder ---------------------------------------------------------------------------

  /** A decoder at `d` that made of `before` what `r` says. */
  ghost predicate Reads<T>(d: Decoder, spec: Read<T>, r: Result<T, DecodeError>)
    reads d
  {
    && d.Valid()
    && match spec
       case Done(v, rest) => r == Ok(v) && d.Rest() == rest
       case Fail(e) => r == Err(e)
  }

  method ReadByteAt(d: Decoder) returns (r: Result<Byte, DecodeError>)
    requires d.Valid()
    modifies d`pos
    ensures Reads(d, ReadByte(old(d.Rest())), r)
  {
    ghost var before := d.Rest();
    var b := d.TakeBytes(1);
    if b.None? { return Err(TruncatedMessage); }
    assert before == b.value + d.Rest();
    assert before[0] == b.value[0];
    return Ok(b.value[0]);
  }

  method ReadU64At(d: Decoder) returns (r: Result<U64, DecodeError>)
    requires d.Valid()
    modifies d`pos
    ensures Reads(d, ReadU64(old(d.Rest())), r)
  {
    var v := d.ReadU64();
    return if v.None? then Err(TruncatedMessage) else Ok(v.value);
  }

  method ReadU32At(d: Decoder) returns (r: Result<U32, DecodeError>)
    requires d.Valid()
    modifies d`pos
    ensures Reads(d, ReadU32(old(d.Rest())), r)
  {
    ghost var before := d.Rest();
    var v := d.ReadInt(4);
    if v.None? { return Err(TruncatedMessage); }
    LittleOfValue(before[..4]);
    Limits();
    return Ok(v.value);
  }

  method ReadBlobAt(d: Decoder) returns (r: Result<seq<Byte>, DecodeError>)
    requires d.Valid()
    modifies d`pos
    ensures Reads(d, ReadBlob(old(d.Rest())), r)
  {
    var v := d.ReadBytes();
    return if v.None? then Err(TruncatedMessage) else Ok(v.value);
  }

  method ReadListAt(d: Decoder) returns (r: Result<seq<U64>, DecodeError>)
    requires d.Valid()
    modifies d`pos
    ensures Reads(d, ReadList(old(d.Rest())), r)
  {
    var v := d.ReadU64List();
    return if v.None? then Err(TruncatedMessage) else Ok(v.value);
  }

  lemma {:induction false} SplitAppend(b: seq<Byte>, w: seq<Byte>)
    requires |b| % 8 == 0 && |w| == 8 && Value(w) <= MAX_U64
    ensures SplitU64s(b + w) == SplitU64s(b) + [Value(w)]
  {
    if b == [] {
      assert b + w == w && w[..8] == w && SplitU64s(w[8..]) == [];
    } else {
      assert (b + w)[..8] == b[..8] && (b + w)[8..] == b[8..] + w;
      SplitAppend(b[8..], w);
    }
  }

  method ReadHeadAt(d: Decoder) returns (r: Result<Head, DecodeError>)
    requires d.Valid()
    modifies d`pos
    ensures Reads(d, ReadHead(old(d.Rest())), r)
  {
    hide Value;
    ghost var before := d.Rest();
    var v: seq<U64> := [];
    for i := 0 to 8
      invariant d.Valid() && 8 * i <= |before| && d.Rest() == before[8 * i..]
      invariant v == SplitU64s(before[..8 * i])
    {
      var w := ReadU64At(d);
      if w.Err? { return Err(w.error); }
      var next := before[8 * i..][..8];
      SplitAppend(before[..8 * i], next);
      assert before[..8 * i + 8] == before[..8 * i] + next;
      v := v + [w.value];
    }
    return Ok(Head(v[0], v[1], v[2], v[3], v[4], v[5], v[6], v[7]));
  }

  method ReadEntryAt(d: Decoder) returns (r: Result<Entry, DecodeError>)
    requires d.Valid()
    modifies d`pos
    ensures Reads(d, ReadEntry(old(d.Rest())), r)
  {
    hide ReadByte, ReadU64, ReadU32, ReadBlob;
    var t := ReadByteAt(d);
    if t.Err? { return Err(t.error); }
    if t.value >= 3 { return Err(InvalidEntryType); }
    var term := ReadU64At(d);
    if term.Err? { return Err(term.error); }
    var index := ReadU64At(d);
    if index.Err? { return Err(index.error); }
    var checksum := ReadU32At(d);
    if checksum.Err? { return Err(checksum.error); }
    var data := ReadBlobAt(d);
    if data.Err? { return Err(data.error); }
    var context := ReadBlobAt(d);
    if context.Err? { return Err(context.error); }
    return Ok(Entry(ENTRY_TYPES[t.value], term.value, index.value, checksum.value, data.value, context.value));
  }

  method ReadConfAt(d: Decoder) returns (r: Result<ConfState, DecodeError>)
    requires d.Valid()
    modifies d`pos
    ensures Reads(d, ReadConf(old(d.Rest())), r)
  {
    hide ReadByte, ReadList;
    var voters := ReadListAt(d);
    if voters.Err? { return Err(voters.error); }
    var learners := ReadListAt(d);
    if learners.Err? { return Err(learners.error); }
    var outgoing := ReadListAt(d);
    if outgoing.Err? { return Err(outgoing.error); }
    var next := ReadListAt(d);
    if next.Err? { return Err(next.error); }
    var auto := ReadByteAt(d);
    if auto.Err? { return Err(auto.error); }
    return Ok(ConfRestore.ConfState(voters.value, learners.value, outgoing.value, next.value, auto.value != 0));
  }

  method ReadSnapshotAt(d: Decoder) returns (r: Result<Snapshot, DecodeError>)
    requires d.Valid()
    modifies d`pos
    ensures Reads(d, ReadSnapshot(old(d.Rest())), r)
  {
    hide ReadU64, ReadConf, ReadBlob;
    var index := ReadU64At(d);
    if index.Err? { return Err(index.error); }
    var term := ReadU64At(d);
    if term.Err? { return Err(term.error); }
    var conf := ReadConfAt(d);
    if conf.Err? { return Err(conf.error); }
    var membership := ReadBlobAt(d);
    if membership.Err? { return Err(membership.error); }
    var data := ReadBlobAt(d);
    if data.Err? { return Err(data.error); }
    return Ok(Snapshot(index.value, term.value, conf.value, membership.value, data.value));
  }

  method ReadEntriesAt(d: Decoder, n: nat) returns (r: Result<seq<Entry>, DecodeError>)
    requires d.Valid()
    modifies d`pos
    ensures Reads(d, ReadEntries(n, old(d.Rest())), r)
  {
    hide ReadEntry;
    ghost var before := d.Rest();
    var entries: seq<Entry> := [];
    PrefixedByNothing(ReadEntries(n, before));
    for i := 0 to n
      invariant d.Valid()
      invariant ReadEntries(n, before) == Prefixed(entries, ReadEntries(n - i, d.Rest()))
    {
      var e := ReadEntryAt(d);
      if e.Err? { return Err(e.error); }
      PrefixedTwice(entries, [e.value], ReadEntries(n - i - 1, d.Rest()));
      entries := entries + [e.value];
    }
    assert entries + [] == entries;
    return Ok(entries);
  }

  ghost function Prefixed(front: seq<Entry>, r: Read<seq<Entry>>): Read<seq<Entry>> {
    match r case Done(es, rest) => Done(front + es, rest) case Fail(e) => Fail(e)
  }

  lemma PrefixedByNothing(r: Read<seq<Entry>>)
    ensures Prefixed([], r) == r
  {
    if r.Done? { assert [] + r.value == r.value; }
  }

  lemma PrefixedTwice(a: seq<Entry>, b: seq<Entry>, r: Read<seq<Entry>>)
    ensures Prefixed(a + b, r) == Prefixed(a, Prefixed(b, r))
  {
    if r.Done? { assert a + b + r.value == a + (b + r.value); }
  }

  method DecodeMessageAt(d: Decoder) returns (r: Result<Message, DecodeError>)
    requires d.Valid()
    modifies d`pos
    ensures Reads(d, ReadMessage(old(d.Rest())), r)
  {
    hide ReadByte, ReadHead, ReadU64, ReadU32, ReadBlob, ReadEntries, ReadSnapshot;
    var t := ReadByteAt(d);
    if t.Err? { return Err(t.error); }
    if t.value >= 19 { return Err(InvalidMessageType); }
    var head := ReadHeadAt(d);
    if head.Err? { return Err(head.error); }
    var reject := ReadByteAt(d);
    if reject.Err? { return Err(reject.error); }
    var hint := ReadU64At(d);
    if hint.Err? { return Err(hint.error); }
    var priority := ReadU64At(d);
    if priority.Err? { return Err(priority.error); }
    var context := ReadBlobAt(d);
    if context.Err? { return Err(context.error); }
    var count := ReadU32At(d);
    if count.Err? { return Err(count.error); }
    var remaining := d.Remaining();
    if CountTooLarge(count.value, remaining) { return Err(TruncatedMessage); }
    var entries := ReadEntriesAt(d, count.value);
    if entries.Err? { return Err(entries.error); }
    var has := ReadByteAt(d);
    if has.Err? { return Err(has.error); }
    var snapshot: Option<Snapshot> := None;
    if has.value != 0 {
      var s := ReadSnapshotAt(d);
      if s.Err? { return Err(s.error); }
      snapshot := Some(s.value);
    }
    return Ok(Message(MESSAGE_TYPES[t.value], head.value, reject.value != 0, hint.value, ToSigned(priority.value),
                      context.value, entries.value, snapshot));
  }

  method DecodeMessage(data: seq<Byte>) returns (r: Result<Message, DecodeError>)
    ensures r == Decode(data)
  {
    hide ReadMessage;
    var d := new Decoder(data);
    assert d.Rest() == data;
    var m := DecodeMessageAt(d);
    if m.Err? { return m; }
    var left := d.Remaining();
    if left != 0 { return Err(TrailingData); }
    return m;
  }
}
